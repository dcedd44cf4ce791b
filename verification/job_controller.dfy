/**
 The job handlers of `server/controllers/jobController.js` as pure operations
 over an in-memory collection. Every handler receives the authenticated user's
 id and every query it issues filters on that id as well as on the job id, so a
 job owned by someone else is indistinguishable from a missing one.
 */
module JobController {
  import opened Http
  import opened JobSchema
  import Seqs
  import Tally
  import Text

  /** The `jobs` collection, in insertion order; only the first-match lookup
      (`FindOwned`) and the newest-first sort read that order. */
  type Store = seq<Job>

  /** MongoDB's unique index on `_id`. */
  predicate UniqueIds(s: Store)
  {
    forall i, j :: 0 <= i < |s| && 0 <= j < |s| && s[i].id == s[j].id ==> i == j
  }

  /** Some job in the collection already has id `id`. */
  predicate IdTaken(s: Store, id: JobId)
  {
    exists i :: 0 <= i < |s| && s[i].id == id
  }

  /** The filter `{ _id: id, user: u }`. */
  predicate Matches(j: Job, u: UserId, id: JobId)
  {
    j.id == id && j.owner == u
  }

  /** Some job matches `{ _id: id, user: u }`. */
  predicate HasOwned(s: Store, u: UserId, id: JobId)
  {
    exists i :: 0 <= i < |s| && Matches(s[i], u, id)
  }

  /** The filter `{ user: u }` as a predicate. */
  function OwnedByUser(u: UserId): Job -> bool
  {
    (j: Job) => j.owner == u
  }

  /** `Job.find({ user: u })` before sorting: the caller's jobs in collection
      order. */
  function OwnedBy(s: Store, u: UserId): seq<Job>
  {
    Seqs.Filter(OwnedByUser(u), s)
  }

  /** The caller's jobs are exactly the stored jobs the caller owns. */
  lemma OwnedMembers(s: Store, u: UserId)
    ensures forall j :: j in OwnedBy(s, u) <==> j in s && j.owner == u
  {
    Seqs.FilterMembers(OwnedByUser(u), s);
  }

  /** A handler's effect: the collection afterwards and the response. */
  datatype Step<+T> = Step(store: Store, reply: Reply<T>)

  const JobNotFound: string := "Job not found"
  const JobDeleted: string := "Job deleted successfully"

  /** The body of a successful `GET /stats`. */
  datatype JobStats = JobStats(total: nat, byStatus: map<string, nat>)

  // ----- createJob -----

  /** `createJob`: builds the document from the five body fields and the
      caller's id, validates it, and inserts it. A validation failure and a
      duplicate `_id` both reach the `catch` block and answer 500, leaving the
      collection unchanged. */
  function CreateJob(s: Store, u: UserId, body: JobFields, newId: JobId, now: Timestamp): (r: Step<Job>)
    ensures r.reply.Ok? <==> NewJob(body, newId, u, now).Valid? && !IdTaken(s, newId)
    ensures r.reply.Ok? ==> && r.reply.status == Created
                            && r.reply.value.owner == u
                            && r.reply.value == NewJob(body, newId, u, now).job
                            && r.store == s + [r.reply.value]
    ensures r.reply.Error? ==> r.reply.status == ServerError && r.reply.msg == ServerErrorMsg && r.store == s
  {
    match NewJob(body, newId, u, now)
    case Invalid(_) => Step(s, Error(ServerError, ServerErrorMsg))
    case Valid(job) =>
      if exists i :: 0 <= i < |s| && s[i].id == newId then Step(s, Error(ServerError, ServerErrorMsg))
      else Step(s + [job], Ok(Created, job))
  }

  // ----- getJobs -----

  /** Jobs ordered by `dateApplied`, most recent first. */
  predicate NewestFirst(js: seq<Job>)
  {
    forall i, j :: 0 <= i < j < |js| ==> js[i].dateApplied >= js[j].dateApplied
  }

  /** A job no older than any of a newest-first sequence can go in front. */
  lemma PrependNewestFirst(h: Job, js: seq<Job>)
    requires NewestFirst(js)
    requires forall y :: y in js ==> h.dateApplied >= y.dateApplied
    ensures NewestFirst([h] + js)
  {
    var r := [h] + js;
    forall i, j | 0 <= i < j < |r| ensures r[i].dateApplied >= r[j].dateApplied {
      if i == 0 {
        assert r[j] == js[j - 1];
      } else {
        assert r[i] == js[i - 1] && r[j] == js[j - 1];
      }
    }
  }

  /** The head of a newest-first sequence can go back in front of the rest
      once `x` has been inserted there. */
  lemma KeepHeadInFront(x: Job, js: seq<Job>, rest: seq<Job>)
    requires js != [] && NewestFirst(js) && x.dateApplied < js[0].dateApplied
    requires NewestFirst(rest) && multiset(rest) == multiset(js[1..]) + multiset{x}
    ensures NewestFirst([js[0]] + rest)
    ensures multiset([js[0]] + rest) == multiset(js) + multiset{x}
  {
    assert js == [js[0]] + js[1..];
    forall y | y in rest ensures js[0].dateApplied >= y.dateApplied {
      assert y in multiset(rest);
      if y != x {
        var k :| 0 <= k < |js[1..]| && js[1..][k] == y;
        assert js[k + 1] == y;
      }
    }
    PrependNewestFirst(js[0], rest);
  }

  /** Inserts `x` into a newest-first sequence at its place. */
  function InsertNewestFirst(x: Job, js: seq<Job>): (r: seq<Job>)
    requires NewestFirst(js)
    ensures NewestFirst(r)
    ensures multiset(r) == multiset(js) + multiset{x}
  {
    if js == [] || x.dateApplied >= js[0].dateApplied then
      PrependNewestFirst(x, js);
      [x] + js
    else
      var rest := InsertNewestFirst(x, js[1..]);
      KeepHeadInFront(x, js, rest);
      [js[0]] + rest
  }

  /** `.sort({ dateApplied: -1 })`: a newest-first permutation of `js`. Jobs
      with equal dates may come in any order, as in MongoDB. */
  function SortNewestFirst(js: seq<Job>): (r: seq<Job>)
    ensures NewestFirst(r)
    ensures multiset(r) == multiset(js)
  {
    if js == [] then []
    else
      assert js == [js[0]] + js[1..];
      InsertNewestFirst(js[0], SortNewestFirst(js[1..]))
  }

  /** `getJobs`: exactly the caller's jobs, each as often as stored, newest
      first. */
  function GetJobs(s: Store, u: UserId): (r: Reply<seq<Job>>)
    ensures r.Ok? && r.status == OK
    ensures NewestFirst(r.value)
    ensures multiset(r.value) == multiset(OwnedBy(s, u))
    ensures forall j :: j in r.value <==> j in s && j.owner == u
  {
    var owned := OwnedBy(s, u);
    OwnedMembers(s, u);
    var sorted := SortNewestFirst(owned);
    assert forall j :: j in sorted <==> j in owned by {
      forall j ensures j in sorted <==> j in owned {
        assert j in sorted <==> j in multiset(sorted);
      }
    }
    Ok(OK, sorted)
  }

  // ----- getJob -----

  /** `findOne({ _id: id, user: u })`: the position of the first matching
      job. */
  function FindOwned(s: Store, u: UserId, id: JobId): (r: Option<nat>)
    ensures r.Some? ==> r.value < |s| && Matches(s[r.value], u, id)
    ensures r.Some? ==> forall k :: 0 <= k < r.value ==> !Matches(s[k], u, id)
    ensures r.None? <==> !HasOwned(s, u, id)
  {
    if s == [] then None
    else if Matches(s[0], u, id) then Some(0)
    else
      match FindOwned(s[1..], u, id)
      case None =>
        assert forall i :: 1 <= i < |s| ==> s[i] == s[1..][i - 1];
        None
      case Some(k) => Some(k + 1)
  }

  /** A job appended under an id the store does not hold yet is the one found
      for that id. */
  lemma FindAppended(s: Store, j: Job)
    requires !IdTaken(s, j.id)
    ensures FindOwned(s + [j], j.owner, j.id) == Some(|s|)
  {
    var t := s + [j];
    assert Matches(t[|s|], j.owner, j.id);
    assert forall i :: 0 <= i < |s| ==> t[i] == s[i];
  }

  /** `getJob`: the caller's job with that id, or 404 when there is none —
      including when the id belongs to another user's job. */
  function GetJob(s: Store, u: UserId, id: JobId): (r: Reply<Job>)
    ensures r.Ok? <==> HasOwned(s, u, id)
    ensures r.Ok? ==> r.status == OK && r.value in s && Matches(r.value, u, id)
    ensures r.Error? ==> r.status == NotFound && r.msg == JobNotFound
  {
    match FindOwned(s, u, id)
    case None => Error(NotFound, JobNotFound)
    case Some(i) => Ok(OK, s[i])
  }

  // ----- updateJob -----

  /** The update document `{ title, company, location, status, notes }` applied
      to a job: each field present in the body replaces the stored one (trimmed,
      for the four fields with a `trim` setter), each absent one is left alone.
      No validator runs, so neither `required` nor the status enumeration is
      checked. */
  function ApplyUpdate(j: Job, p: JobFields): (r: Job)
    ensures r.id == j.id && r.owner == j.owner && r.dateApplied == j.dateApplied
    ensures p.title.None? ==> r.title == j.title
    ensures p.company.None? ==> r.company == j.company
    ensures p.location.None? ==> r.location == j.location
    ensures p.status.None? ==> r.status == j.status
    ensures p.notes.None? ==> r.notes == j.notes
    ensures p.title.Some? ==> r.title == Text.Trim(p.title.value)
    ensures p.company.Some? ==> r.company == Text.Trim(p.company.value)
    ensures p.location.Some? ==> r.location == Some(Text.Trim(p.location.value))
    ensures p.notes.Some? ==> r.notes == Some(Text.Trim(p.notes.value))
    ensures p.status.Some? ==> r.status == p.status.value
  {
    j.(
      title := if p.title.Some? then Text.Trim(p.title.value) else j.title,
      company := if p.company.Some? then Text.Trim(p.company.value) else j.company,
      location := if p.location.Some? then TrimField(p.location) else j.location,
      status := if p.status.Some? then p.status.value else j.status,
      notes := if p.notes.Some? then TrimField(p.notes) else j.notes)
  }

  /** `updateJob` (`findOneAndUpdate` with `new: true`): replaces the first
      matching owned job by its updated version and answers with that version;
      404 with the collection unchanged when nothing matches. */
  function UpdateJob(s: Store, u: UserId, id: JobId, p: JobFields): (r: Step<Job>)
    ensures r.reply.Ok? <==> HasOwned(s, u, id)
    ensures r.reply.Error? ==> r.store == s && r.reply.status == NotFound && r.reply.msg == JobNotFound
    ensures r.reply.Ok? ==> r.reply.status == OK
    ensures r.reply.Ok? ==> exists i :: 0 <= i < |s| && Matches(s[i], u, id)
                                        && r.reply.value == ApplyUpdate(s[i], p)
                                        && r.store == s[i := r.reply.value]
  {
    match FindOwned(s, u, id)
    case None => Step(s, Error(NotFound, JobNotFound))
    case Some(i) =>
      var updated := ApplyUpdate(s[i], p);
      Step(s[i := updated], Ok(OK, updated))
  }

  // ----- deleteJob -----

  /** `deleteJob` (`findOneAndDelete`): removes the first matching owned job and
      keeps every other job in place; 404 with the collection unchanged when
      nothing matches. */
  function DeleteJob(s: Store, u: UserId, id: JobId): (r: Step<string>)
    ensures r.reply.Ok? <==> HasOwned(s, u, id)
    ensures r.reply.Error? ==> r.store == s && r.reply.status == NotFound && r.reply.msg == JobNotFound
    ensures r.reply.Ok? ==> r.reply.status == OK && r.reply.value == JobDeleted
    ensures r.reply.Ok? ==> exists i :: 0 <= i < |s| && Matches(s[i], u, id)
                                        && r.store == s[..i] + s[i + 1..]
  {
    match FindOwned(s, u, id)
    case None => Step(s, Error(NotFound, JobNotFound))
    case Some(i) => Step(s[..i] + s[i + 1..], Ok(OK, JobDeleted))
  }

  // ----- getJobStats -----

  /** The status of each job, in order: what the `$group` stage groups on. */
  function StatusesOf(js: seq<Job>): (r: seq<string>)
    ensures |r| == |js|
    ensures forall i :: 0 <= i < |js| ==> r[i] == js[i].status
  {
    seq(|js|, i requires 0 <= i < |js| => js[i].status)
  }

  function HasStatus(k: string): Job -> bool
  {
    (j: Job) => j.status == k
  }

  /** The number of jobs in `js` whose status is `k`. */
  function CountStatus(js: seq<Job>, k: string): nat
  {
    |Seqs.Filter(HasStatus(k), js)|
  }

  /** A status occurs in the status column as often as jobs have it. */
  lemma {:induction false} StatusMultiplicity(js: seq<Job>, k: string)
    ensures multiset(StatusesOf(js))[k] == CountStatus(js, k)
  {
    if js != [] {
      StatusMultiplicity(js[1..], k);
      assert StatusesOf(js) == [js[0].status] + StatusesOf(js[1..]);
      Seqs.FilterStep(HasStatus(k), js);
    }
  }

  /** A status occurs among the caller's jobs exactly when some stored job of
      the caller has it. */
  lemma OwnedStatuses(s: Store, u: UserId)
    ensures forall k :: k in StatusesOf(OwnedBy(s, u)) <==> exists j :: j in s && j.owner == u && j.status == k
  {
    var owned := OwnedBy(s, u);
    var st := StatusesOf(owned);
    OwnedMembers(s, u);
    forall k ensures k in st <==> exists j :: j in s && j.owner == u && j.status == k {
      if k in st {
        var i :| 0 <= i < |st| && st[i] == k;
        assert owned[i] in owned;
      }
      if exists j :: j in s && j.owner == u && j.status == k {
        var j :| j in s && j.owner == u && j.status == k;
        assert j in owned;
        var i :| 0 <= i < |owned| && owned[i] == j;
        assert st[i] == k;
      }
    }
  }

  /** A status no job of the caller has is counted zero times. */
  lemma NoJobNoCount(s: Store, u: UserId, k: string)
    requires forall j :: j in s && j.owner == u ==> j.status != k
    ensures CountStatus(OwnedBy(s, u), k) == 0
  {
    var owned := OwnedBy(s, u);
    OwnedMembers(s, u);
    forall x | x in owned ensures !HasStatus(k)(x) {
      assert x in s && x.owner == u;
    }
    Seqs.FilterNone(HasStatus(k), owned);
  }

  /** The key an assignment to a plain object cannot create: `obj["__proto__"]
      = n` goes to the inherited `__proto__` setter, which ignores a number. */
  const ProtoKey: string := "__proto__"

  /** The counts of the caller's statuses as a plain object holds them, with
      the `__proto__` group dropped. */
  function StatusCounts(owned: seq<Job>): (m: map<string, nat>)
    ensures ProtoKey !in m
    ensures forall k :: k in m <==> k != ProtoKey && k in StatusesOf(owned)
    ensures forall k :: k in m ==> m[k] == CountStatus(owned, k) > 0
    ensures Tally.MapSum(m) + CountStatus(owned, ProtoKey) == |owned|
  {
    var all := Tally.Count(StatusesOf(owned));
    forall k | k in all ensures all[k] == CountStatus(owned, k) {
      StatusMultiplicity(owned, k);
    }
    StatusMultiplicity(owned, ProtoKey);
    Tally.MapSumWithout(all, ProtoKey);
    all - {ProtoKey}
  }

  /** `getJobStats`: `countDocuments({ user })` as the total, and the per-status
      counts of the caller's jobs copied into `byStatus`. A status is a key
      exactly when some job of the caller has it and it is not `__proto__`;
      its value is the number of such jobs, so no key maps to zero; and the
      values add up to the total less the jobs whose status is `__proto__`. */
  function GetJobStats(s: Store, u: UserId): (r: Reply<JobStats>)
    ensures r.Ok? && r.status == OK
    ensures r.value.total == |OwnedBy(s, u)|
    ensures forall k :: k in r.value.byStatus <==> k != ProtoKey && exists j :: j in s && j.owner == u && j.status == k
    ensures forall k :: k in r.value.byStatus ==> r.value.byStatus[k] == CountStatus(OwnedBy(s, u), k) > 0
    ensures Tally.MapSum(r.value.byStatus) + CountStatus(OwnedBy(s, u), ProtoKey) == r.value.total
  {
    var owned := OwnedBy(s, u);
    OwnedStatuses(s, u);
    Ok(OK, JobStats(|owned|, StatusCounts(owned)))
  }

  /** When no job of the caller has status `__proto__`, the counts add up to
      the total. */
  lemma StatsAddUpWithoutProto(s: Store, u: UserId)
    requires forall j :: j in s && j.owner == u ==> j.status != ProtoKey
    ensures Tally.MapSum(GetJobStats(s, u).value.byStatus) == GetJobStats(s, u).value.total
  {
    NoJobNoCount(s, u, ProtoKey);
  }

  /** A job of the caller with status `__proto__`, which an update can store,
      is counted in the total but has no key, and the counts add up to less
      than the total. */
  lemma ProtoStatusIsDropped(s: Store, u: UserId, j: Job)
    requires j in s && j.owner == u && j.status == ProtoKey
    ensures ProtoKey !in GetJobStats(s, u).value.byStatus
    ensures Tally.MapSum(GetJobStats(s, u).value.byStatus) < GetJobStats(s, u).value.total
  {
    var owned := OwnedBy(s, u);
    OwnedMembers(s, u);
    Seqs.FilterMembers(HasStatus(ProtoKey), owned);
    assert j in Seqs.Filter(HasStatus(ProtoKey), owned);
  }
}
