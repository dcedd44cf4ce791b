/**
 The pure data functions of the job list page (`src/pages/Jobs.jsx`): the
 search-and-status filter that chooses the rows to show, the local list update
 after a successful delete, and the badge colour of a status. React state,
 effects and rendering are not modelled; the page's job list is the listing
 the server returned.
 */
module JobsPage {
  import opened JobSchema
  import JobController
  import JobProperties
  import Seqs
  import Text

  /** The status filter value that shows every status. */
  const AllStatuses: string := "all"

  /** The search box matches a job when its lower-cased title or company
      contains the lower-cased search term. */
  predicate MatchesSearch(job: Job, term: string)
  {
    var t := Text.ToLower(term);
    Text.Contains(Text.ToLower(job.title), t) || Text.Contains(Text.ToLower(job.company), t)
  }

  /** The status drop-down matches a job when it reads "all" or the job's
      status exactly. */
  predicate MatchesStatus(job: Job, filter: string)
  {
    filter == AllStatuses || job.status == filter
  }

  function Shown(term: string, filter: string): Job -> bool
  {
    (j: Job) => MatchesSearch(j, term) && MatchesStatus(j, filter)
  }

  /** `filteredJobs`: the jobs to display. A job is shown exactly when both the
      search and the status filter match it; with a filter other than "all"
      every shown job has that status. */
  function FilterJobs(jobs: seq<Job>, term: string, filter: string): (r: seq<Job>)
    ensures forall j :: j in r <==> j in jobs && MatchesSearch(j, term) && MatchesStatus(j, filter)
    ensures filter != AllStatuses ==> forall j :: j in r ==> j.status == filter
    ensures |r| <= |jobs|
  {
    Seqs.FilterMembers(Shown(term, filter), jobs);
    Seqs.Filter(Shown(term, filter), jobs)
  }

  /** The shown jobs are a subsequence of the list: the filter keeps the
      relative order and never duplicates a job. */
  lemma FilterJobsKeepsOrder(jobs: seq<Job>, term: string, filter: string)
    ensures Seqs.IsSubsequence(FilterJobs(jobs, term, filter), jobs)
    ensures forall j :: j in jobs ==>
              multiset(FilterJobs(jobs, term, filter))[j]
              == if MatchesSearch(j, term) && MatchesStatus(j, filter) then multiset(jobs)[j] else 0
  {
    Seqs.FilterIsSubsequence(Shown(term, filter), jobs);
    forall j | j in jobs
      ensures multiset(FilterJobs(jobs, term, filter))[j]
              == if MatchesSearch(j, term) && MatchesStatus(j, filter) then multiset(jobs)[j] else 0
    {
      Seqs.FilterMultiplicity(Shown(term, filter), jobs, j);
    }
  }

  /** The search matches exactly when the lower-cased term occurs at some
      position of the lower-cased title or company. */
  lemma SearchIsCaseInsensitiveSubstring(job: Job, term: string)
    ensures MatchesSearch(job, term) <==>
              (exists i: nat :: Text.OccursAt(Text.ToLower(job.title), Text.ToLower(term), i))
              || (exists i: nat :: Text.OccursAt(Text.ToLower(job.company), Text.ToLower(term), i))
    ensures MatchesSearch(job, term) <==> MatchesSearch(job, Text.ToLower(term))
  {
    Text.ToLowerIdempotent(term);
  }

  /** An empty search box matches every job, so only the status filter
      applies; with "all" as well, the whole list is shown. */
  lemma EmptySearchShowsAll(jobs: seq<Job>, filter: string)
    ensures FilterJobs(jobs, "", filter) == Seqs.Filter((j: Job) => MatchesStatus(j, filter), jobs)
    ensures FilterJobs(jobs, "", AllStatuses) == jobs
  {
    forall j: Job ensures MatchesSearch(j, "") {
      Text.EmptyIsContained(Text.ToLower(j.title));
    }
    Seqs.FilterCongruent(Shown("", filter), (j: Job) => MatchesStatus(j, filter), jobs);
    Seqs.FilterAll(Shown("", AllStatuses), jobs);
  }

  /** The status filter "all" places no restriction on the status: the result
      is what the search alone selects. */
  lemma AllStatusesIsNoRestriction(jobs: seq<Job>, term: string)
    ensures FilterJobs(jobs, term, AllStatuses) == Seqs.Filter((j: Job) => MatchesSearch(j, term), jobs)
  {
    Seqs.FilterCongruent(Shown(term, AllStatuses), (j: Job) => MatchesSearch(j, term), jobs);
  }

  function Keeps(id: JobId): Job -> bool
  {
    (j: Job) => j.id != id
  }

  /** The list update after a delete: every job with the deleted id goes, and
      every other job stays. */
  function RemoveJob(jobs: seq<Job>, id: JobId): (r: seq<Job>)
    ensures forall j :: j in r ==> j.id != id
    ensures forall j :: j in jobs && j.id != id ==> j in r
  {
    Seqs.FilterMembers(Keeps(id), jobs);
    Seqs.Filter(Keeps(id), jobs)
  }

  /** The remaining jobs keep their order and their multiplicities; exactly the
      jobs with the deleted id are gone. */
  lemma RemoveJobKeepsOthersInOrder(jobs: seq<Job>, id: JobId)
    ensures Seqs.IsSubsequence(RemoveJob(jobs, id), jobs)
    ensures forall j :: j in jobs ==> multiset(RemoveJob(jobs, id))[j] == if j.id == id then 0 else multiset(jobs)[j]
  {
    Seqs.FilterIsSubsequence(Keeps(id), jobs);
    forall j | j in jobs
      ensures multiset(RemoveJob(jobs, id))[j] == if j.id == id then 0 else multiset(jobs)[j]
    {
      Seqs.FilterMultiplicity(Keeps(id), jobs, j);
    }
  }

  /** When `after` is `before` with one job `gone` taken out and no job with
      `gone`'s id left, dropping that id from `before` gives the same jobs as
      `after`, each as often. */
  lemma RemoveJobMatchesOneRemoval(before: seq<Job>, after: seq<Job>, gone: Job)
    requires multiset(after) == multiset(before) - multiset{gone}
    requires forall j :: j in after ==> j.id != gone.id
    ensures multiset(RemoveJob(before, gone.id)) == multiset(after)
  {
    forall j ensures multiset(RemoveJob(before, gone.id))[j] == multiset(after)[j] {
      Seqs.FilterMultiplicity(Keeps(gone.id), before, j);
      if j.id == gone.id {
        assert j !in after;
      } else {
        assert j != gone;
      }
    }
  }

  /** The page and the server agree after a delete: when the page shows the
      caller's listing and the server deletes the job, the page's updated list
      holds the same jobs, as often, as the caller's listing fetched anew. */
  lemma RemoveJobMirrorsServer(s: JobController.Store, u: UserId, id: JobId)
    requires JobController.UniqueIds(s)
    requires JobController.DeleteJob(s, u, id).reply.Ok?
    ensures var before := JobController.GetJobs(s, u).value;
            var after := JobController.GetJobs(JobController.DeleteJob(s, u, id).store, u).value;
            multiset(RemoveJob(before, id)) == multiset(after)
  {
    var before := JobController.GetJobs(s, u).value;
    var d := JobController.DeleteJob(s, u, id);
    var after := JobController.GetJobs(d.store, u).value;
    var gone := JobProperties.DeleteDropsOneOwnedJob(s, u, id);
    JobProperties.DeleteRemovesTheId(s, u, id);
    assert forall j :: j in after ==> j.id != id;
    RemoveJobMatchesOneRemoval(before, after, gone);
  }

  const Blue: string := "bg-blue-100 text-blue-800"
  const Green: string := "bg-green-100 text-green-800"
  const Yellow: string := "bg-yellow-100 text-yellow-800"
  const Red: string := "bg-red-100 text-red-800"
  const Purple: string := "bg-purple-100 text-purple-800"
  const Gray: string := "bg-gray-100 text-gray-800"

  /** `getStatusColor`: a colour per known status and gray for anything
      else. Exactly the unknown statuses are gray. */
  function StatusColor(status: string): (r: string)
    ensures r == Gray <==> !IsKnownStatus(status)
    ensures r in {Blue, Green, Yellow, Red, Purple, Gray}
  {
    match status
    case "applied" => Blue
    case "interview" => Green
    case "offer" => Yellow
    case "rejected" => Red
    case "saved" => Purple
    case _ => Gray
  }

  /** Distinct known statuses get distinct colours. */
  lemma StatusColorsAreDistinct(a: string, b: string)
    requires IsKnownStatus(a) && IsKnownStatus(b) && a != b
    ensures StatusColor(a) != StatusColor(b)
  {
  }
}
