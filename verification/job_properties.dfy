/**
 Properties relating several job handlers: ownership isolation (what one user
 sees and does never depends on, or changes, another user's jobs), the
 create/get and create/delete round trips, idempotence of an update, and
 preservation of the unique-id index.
 */
module JobProperties {
  import opened Http
  import opened JobSchema
  import opened JobController
  import Seqs
  import Text

  /** The first job of `js` with id `id`: a lookup that only looks at the given
      jobs. */
  function FirstWithId(js: seq<Job>, id: JobId): (r: Option<Job>)
    ensures r.Some? ==> r.value in js && r.value.id == id
    ensures r.None? ==> forall j :: j in js ==> j.id != id
  {
    if js == [] then None
    else if js[0].id == id then Some(js[0])
    else FirstWithId(js[1..], id)
  }

  /** When the first job does not match, `getJob` answers as on the rest. */
  lemma GetJobSkipsHead(s: Store, u: UserId, id: JobId)
    requires s != [] && !Matches(s[0], u, id)
    ensures GetJob(s, u, id) == GetJob(s[1..], u, id)
  {
    match FindOwned(s[1..], u, id)
    case None =>
    case Some(k) => assert s[k + 1] == s[1..][k];
  }

  /** `getJob` answers exactly as a lookup among the caller's jobs alone would:
      the query on `{ _id, user }` never reaches another user's job. */
  lemma {:induction false} GetJobLooksOnlyAtOwnJobs(s: Store, u: UserId, id: JobId)
    ensures GetJob(s, u, id) == match FirstWithId(OwnedBy(s, u), id)
                                case Some(j) => Ok(OK, j)
                                case None => Error(NotFound, JobNotFound)
  {
    if s != [] {
      assert s == [s[0]] + s[1..];
      Seqs.FilterConcat(OwnedByUser(u), [s[0]], s[1..]);
      if !Matches(s[0], u, id) {
        GetJobSkipsHead(s, u, id);
        GetJobLooksOnlyAtOwnJobs(s[1..], u, id);
      }
    }
  }

  /** `updateJob` answers with the job `getJob` would return, updated. */
  lemma UpdateReplyIsUpdatedGet(s: Store, u: UserId, id: JobId, p: JobFields)
    ensures UpdateJob(s, u, id, p).reply == match GetJob(s, u, id)
                                            case Ok(_, j) => Ok(OK, ApplyUpdate(j, p))
                                            case Error(c, m) => Error(c, m)
  {
  }

  /** Ownership isolation for reads: two collections holding the same jobs for
      user `u`, whatever else they hold, give `u` identical answers to every
      request. */
  lemma AnswersDependOnlyOnOwnJobs(s1: Store, s2: Store, u: UserId, id: JobId, p: JobFields)
    requires OwnedBy(s1, u) == OwnedBy(s2, u)
    ensures GetJobs(s1, u) == GetJobs(s2, u)
    ensures GetJob(s1, u, id) == GetJob(s2, u, id)
    ensures UpdateJob(s1, u, id, p).reply == UpdateJob(s2, u, id, p).reply
    ensures DeleteJob(s1, u, id).reply == DeleteJob(s2, u, id).reply
    ensures GetJobStats(s1, u) == GetJobStats(s2, u)
  {
    GetJobLooksOnlyAtOwnJobs(s1, u, id);
    GetJobLooksOnlyAtOwnJobs(s2, u, id);
    UpdateReplyIsUpdatedGet(s1, u, id, p);
    UpdateReplyIsUpdatedGet(s2, u, id, p);
  }

  /** Ownership isolation for writes: nothing user `u` does changes the jobs
      another user `v` sees. */
  lemma OthersJobsUntouched(s: Store, u: UserId, v: UserId, id: JobId, p: JobFields,
                                               body: JobFields, newId: JobId, now: Timestamp)
    requires u != v
    ensures OwnedBy(CreateJob(s, u, body, newId, now).store, v) == OwnedBy(s, v)
    ensures OwnedBy(UpdateJob(s, u, id, p).store, v) == OwnedBy(s, v)
    ensures OwnedBy(DeleteJob(s, u, id).store, v) == OwnedBy(s, v)
  {
    var c := CreateJob(s, u, body, newId, now);
    if c.reply.Ok? {
      Seqs.FilterConcat(OwnedByUser(v), s, [c.reply.value]);
    }
    var up := UpdateJob(s, u, id, p);
    if up.reply.Ok? {
      var i :| 0 <= i < |s| && Matches(s[i], u, id) && up.reply.value == ApplyUpdate(s[i], p)
               && up.store == s[i := up.reply.value];
      Seqs.FilterReplaceHidden(OwnedByUser(v), s, i, up.reply.value);
    }
    var d := DeleteJob(s, u, id);
    if d.reply.Ok? {
      var i :| 0 <= i < |s| && Matches(s[i], u, id) && d.store == s[..i] + s[i + 1..];
      Seqs.FilterRemoveHidden(OwnedByUser(v), s, i);
    }
  }

  /** A job of another user answers 404 to `get`, `update` and `delete` by its
      id, exactly like a job that does not exist, and the collection stays as
      it was. */
  lemma ForeignJobIsNotFound(s: Store, u: UserId, j: Job, p: JobFields)
    requires UniqueIds(s) && j in s && j.owner != u
    ensures GetJob(s, u, j.id) == Error(NotFound, JobNotFound)
    ensures UpdateJob(s, u, j.id, p) == Step(s, Error(NotFound, JobNotFound))
    ensures DeleteJob(s, u, j.id) == Step(s, Error(NotFound, JobNotFound))
  {
    var k :| 0 <= k < |s| && s[k] == j;
    assert !HasOwned(s, u, j.id);
  }

  /** A created job is the caller's job with the new id. */
  lemma CreatedJobIsFound(s: Store, u: UserId, body: JobFields, newId: JobId, now: Timestamp)
    requires CreateJob(s, u, body, newId, now).reply.Ok?
    ensures var c := CreateJob(s, u, body, newId, now);
            GetJob(c.store, u, newId) == Ok(OK, c.reply.value)
  {
    var c := CreateJob(s, u, body, newId, now);
    FindAppended(s, c.reply.value);
  }

  /** A create adds the new job to the caller's jobs, after the ones already
      there. */
  lemma CreateAppendsToOwned(s: Store, u: UserId, body: JobFields, newId: JobId, now: Timestamp)
    requires CreateJob(s, u, body, newId, now).reply.Ok?
    ensures var c := CreateJob(s, u, body, newId, now);
            OwnedBy(c.store, u) == OwnedBy(s, u) + [c.reply.value]
  {
    var c := CreateJob(s, u, body, newId, now);
    Seqs.FilterConcat(OwnedByUser(u), s, [c.reply.value]);
    Seqs.FilterSingleton(OwnedByUser(u), c.reply.value);
  }

  /** A created job can be fetched back by its id: it carries the trimmed
      submitted fields, the default status when none was sent and `now` as its
      date; it is listed; and the caller's total grows by one. */
  lemma CreateThenGet(s: Store, u: UserId, body: JobFields, newId: JobId, now: Timestamp)
    requires CreateJob(s, u, body, newId, now).reply.Ok?
    ensures var c := CreateJob(s, u, body, newId, now);
            var job := c.reply.value;
            && GetJob(c.store, u, newId) == Ok(OK, job)
            && Some(job.title) == TrimField(body.title)
            && Some(job.company) == TrimField(body.company)
            && job.location == TrimField(body.location)
            && job.notes == TrimField(body.notes)
            && job.status == (if body.status.Some? then body.status.value else "applied")
            && job.dateApplied == now
            && job in GetJobs(c.store, u).value
            && GetJobStats(c.store, u).value.total == GetJobStats(s, u).value.total + 1
  {
    var c := CreateJob(s, u, body, newId, now);
    CreatedJobIsFound(s, u, body, newId, now);
    CreateAppendsToOwned(s, u, body, newId, now);
  }

  /** Deleting the job appended last, under an id the rest does not hold,
      gives back the rest. */
  lemma DeleteAppended(s: Store, j: Job)
    requires !IdTaken(s, j.id)
    ensures DeleteJob(s + [j], j.owner, j.id) == Step(s, Ok(OK, JobDeleted))
  {
    var t := s + [j];
    FindAppended(s, j);
    assert t[..|s|] == s && t[|s| + 1..] == [];
  }

  /** Deleting a freshly created job by its id restores the collection. */
  lemma DeleteUndoesCreate(s: Store, u: UserId, body: JobFields, newId: JobId, now: Timestamp)
    requires CreateJob(s, u, body, newId, now).reply.Ok?
    ensures DeleteJob(CreateJob(s, u, body, newId, now).store, u, newId) == Step(s, Ok(OK, JobDeleted))
  {
    var c := CreateJob(s, u, body, newId, now);
    DeleteAppended(s, c.reply.value);
  }

  /** Applying a patch to its own result changes nothing. */
  lemma ApplyUpdateIsIdempotent(j: Job, p: JobFields)
    ensures ApplyUpdate(ApplyUpdate(j, p), p) == ApplyUpdate(j, p)
  {
    if p.title.Some? { Text.TrimIdempotent(p.title.value); }
    if p.company.Some? { Text.TrimIdempotent(p.company.value); }
    if p.location.Some? { Text.TrimIdempotent(p.location.value); }
    if p.notes.Some? { Text.TrimIdempotent(p.notes.value); }
  }

  /** Sending the same update twice leaves the collection as one update does:
      the fields it sets are already trimmed the second time. */
  lemma UpdateIsIdempotent(s: Store, u: UserId, id: JobId, p: JobFields)
    ensures UpdateJob(UpdateJob(s, u, id, p).store, u, id, p) == UpdateJob(s, u, id, p)
  {
    var first := UpdateJob(s, u, id, p);
    if first.reply.Ok? {
      var i := FindOwned(s, u, id).value;
      var x := first.reply.value;
      assert first.store == s[i := x];
      var t := first.store;
      assert FindOwned(t, u, id) == Some(i) by {
        var k := FindOwned(t, u, id);
        assert Matches(t[i], u, id);
        assert k.Some?;
      }
      ApplyUpdateIsIdempotent(s[i], p);
      assert t[i := x] == t;
    }
  }

  /** A successful create keeps job ids unique: the new id was free. */
  lemma CreateKeepsIdsUnique(s: Store, u: UserId, body: JobFields, newId: JobId, now: Timestamp)
    requires UniqueIds(s)
    ensures UniqueIds(CreateJob(s, u, body, newId, now).store)
  {
    var c := CreateJob(s, u, body, newId, now);
    if c.reply.Ok? {
      var t := c.store;
      forall i, j | 0 <= i < |t| && 0 <= j < |t| && t[i].id == t[j].id ensures i == j {
        assert i < |s| ==> t[i] == s[i];
        assert j < |s| ==> t[j] == s[j];
      }
    }
  }

  /** An update keeps every id where it was. */
  lemma UpdateKeepsIdsUnique(s: Store, u: UserId, id: JobId, p: JobFields)
    requires UniqueIds(s)
    ensures UniqueIds(UpdateJob(s, u, id, p).store)
  {
  }

  /** Taking one job out keeps the ids unique. */
  lemma RemoveAtKeepsIdsUnique(s: Store, k: nat)
    requires UniqueIds(s) && k < |s|
    ensures UniqueIds(s[..k] + s[k + 1..])
  {
    var t := s[..k] + s[k + 1..];
    forall i, j | 0 <= i < |t| && 0 <= j < |t| && t[i].id == t[j].id ensures i == j {
      var i' := if i < k then i else i + 1;
      var j' := if j < k then j else j + 1;
      assert t[i] == s[i'] && t[j] == s[j'];
    }
  }

  /** A delete only removes a job, so ids stay unique. */
  lemma DeleteKeepsIdsUnique(s: Store, u: UserId, id: JobId)
    requires UniqueIds(s)
    ensures UniqueIds(DeleteJob(s, u, id).store)
  {
    var d := DeleteJob(s, u, id);
    if d.reply.Ok? {
      var k :| 0 <= k < |s| && Matches(s[k], u, id) && d.store == s[..k] + s[k + 1..];
      RemoveAtKeepsIdsUnique(s, k);
    }
  }

  /** A successful delete takes exactly one job out of the caller's jobs:
      the one it found. */
  lemma DeleteDropsOneOwnedJob(s: Store, u: UserId, id: JobId) returns (gone: Job)
    requires DeleteJob(s, u, id).reply.Ok?
    ensures gone in s && Matches(gone, u, id)
    ensures multiset(OwnedBy(DeleteJob(s, u, id).store, u)) == multiset(OwnedBy(s, u)) - multiset{gone}
  {
    var d := DeleteJob(s, u, id);
    var i :| 0 <= i < |s| && Matches(s[i], u, id) && d.store == s[..i] + s[i + 1..];
    gone := s[i];
    Seqs.FilterRemove(OwnedByUser(u), s, i);
  }

  /** With unique ids, no job with the deleted id is left. */
  lemma DeleteRemovesTheId(s: Store, u: UserId, id: JobId)
    requires UniqueIds(s)
    requires DeleteJob(s, u, id).reply.Ok?
    ensures forall j :: j in DeleteJob(s, u, id).store ==> j.id != id
  {
    var d := DeleteJob(s, u, id);
    var i :| 0 <= i < |s| && Matches(s[i], u, id) && d.store == s[..i] + s[i + 1..];
    forall k | 0 <= k < |d.store| ensures d.store[k].id != id {
      var k' := if k < i then k else k + 1;
      assert d.store[k] == s[k'];
    }
  }

  /** `updateJob` runs no validator: a status outside the enumeration is stored
      as sent, so the updated job no longer satisfies the creation-time
      schema invariant. */
  lemma UpdateBypassesEnum(j: Job, p: JobFields)
    requires p.status.Some? && !IsKnownStatus(p.status.value)
    ensures !IsSchemaValid(ApplyUpdate(j, p))
    ensures ApplyUpdate(j, p).status == p.status.value
  {
  }

  /** The stats total always equals the length of the caller's job list. */
  lemma StatsTotalIsListLength(s: Store, u: UserId)
    ensures GetJobStats(s, u).value.total == |GetJobs(s, u).value|
  {
    var l := GetJobs(s, u).value;
    assert |multiset(l)| == |l| && |multiset(OwnedBy(s, u))| == |OwnedBy(s, u)|;
  }
}
