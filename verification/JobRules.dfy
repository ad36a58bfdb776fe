/**
 The rules of postings, issue by issue, and what a call stores and announces, field by field.
 */
module JobRules {
  import opened Text
  import opened Wrappers
  import opened CustomForm
  import opened Job
  import opened JobModel
  import FormRules
  import Slug

  // ---------- Postings ----------

  function Len(lib: Library, s: string): nat {
    ByteLength(Trim(s, lib.u.isSpace))
  }

  predicate IsBlank(lib: Library, s: string) {
    Trim(s, lib.u.isSpace) == ""
  }

  /** What each issue says about a posting and its status. */
  predicate Breaks(lib: Library, p: Posting, status: Status, d: JobDetail) {
    match d
    case TitleRequired => IsBlank(lib, p.title)
    case TitleTooLong => !IsBlank(lib, p.title) && Len(lib, p.title) > 255
    case DepartmentRequired => IsBlank(lib, p.department)
    case DepartmentTooLong => !IsBlank(lib, p.department) && Len(lib, p.department) > 100
    case LocationRequired => IsBlank(lib, p.location)
    case LocationTooLong => !IsBlank(lib, p.location) && Len(lib, p.location) > 150
    case DescriptionRequired => IsBlank(lib, p.description)
    case InvalidEmploymentType => p.employmentType !in {NoType, FullTime, PartTime, Contract, Internship}
    case InvalidStatus => status !in {NoStatus, Draft, Published, Archived}
    case ExperienceTooLong => p.experience.Some? && Len(lib, p.experience.value) > 50
    case CurrencyTooLong => p.currency != "" && Len(lib, p.currency) > 3
    case SalaryMinNegative => p.salaryMin.Some? && p.salaryMin.value < 0.0
    case SalaryMaxNegative => p.salaryMax.Some? && p.salaryMax.value < 0.0
    case SalaryMinAboveMax => p.salaryMin.Some? && p.salaryMax.Some? && p.salaryMin.value > p.salaryMax.value
    case InvalidSlug => p.slug != "" && !Slug.IsValidSlug(p.slug)
    case InCustomField(x) => x.field < |p.customFields| && FormRules.Breaks(lib, p.customFields, x.field, x.issue)
  }

  /** The order in which issues are reported. */
  function Rank(d: JobDetail): nat {
    match d
    case TitleRequired => 0 case TitleTooLong => 0
    case DepartmentRequired => 1 case DepartmentTooLong => 1
    case LocationRequired => 2 case LocationTooLong => 2
    case DescriptionRequired => 3
    case InvalidEmploymentType => 4
    case InvalidStatus => 5
    case ExperienceTooLong => 6
    case CurrencyTooLong => 7
    case SalaryMinNegative => 8
    case SalaryMaxNegative => 9
    case SalaryMinAboveMax => 10
    case InvalidSlug => 11
    case InCustomField(_) => 12
  }

  predicate Before(d: JobDetail, e: JobDetail) {
    || Rank(d) < Rank(e)
    || (d.InCustomField? && e.InCustomField? && FormRules.Before(d.detail, e.detail))
  }

  predicate Ascending(ds: seq<JobDetail>) {
    forall a, b :: 0 <= a < b < |ds| ==> Before(ds[a], ds[b])
  }

  /** The details of one part of the check: those that hold, with ranks from `lo` to below `hi`. */
  ghost predicate Part(lib: Library, p: Posting, status: Status, ds: seq<JobDetail>, lo: nat, hi: nat) {
    && Ascending(ds)
    && forall d :: d in ds <==> lo <= Rank(d) < hi && Breaks(lib, p, status, d)
  }

  lemma PartsJoin(lib: Library, p: Posting, status: Status, a: seq<JobDetail>, b: seq<JobDetail>,
                  lo: nat, mid: nat, hi: nat)
    requires lo <= mid <= hi && Part(lib, p, status, a, lo, mid) && Part(lib, p, status, b, mid, hi)
    ensures Part(lib, p, status, a + b, lo, hi)
  {
    hide Breaks;
    var all := a + b;
    forall i, j | 0 <= i < j < |all|
      ensures Before(all[i], all[j])
    {
      assert i < |a| ==> all[i] in a;
      assert j >= |a| ==> all[j] in b;
    }
  }

  lemma TextPart(lib: Library, p: Posting, status: Status, k: nat)
    requires k < 3
    ensures Part(lib, p, status,
                 if k == 0 then TextDetails(lib, p.title, 255, TitleRequired, TitleTooLong)
                 else if k == 1 then TextDetails(lib, p.department, 100, DepartmentRequired, DepartmentTooLong)
                 else TextDetails(lib, p.location, 150, LocationRequired, LocationTooLong), k, k + 1)
  {
    hide Trim, ByteLength;
  }

  lemma SinglePart(lib: Library, p: Posting, status: Status)
    ensures Part(lib, p, status, If(lib.Trimmed(p.description) == "", DescriptionRequired), 3, 4)
    ensures Part(lib, p, status, If(p.slug != "" && !Slug.IsValidSlug(p.slug), InvalidSlug), 11, 12)
  {
    hide Trim, ByteLength, Slug.IsValidSlug;
  }

  lemma EnumPart(lib: Library, p: Posting, status: Status)
    ensures Part(lib, p, status, EnumDetails(p.employmentType, status), 4, 6)
  {
    hide Trim, ByteLength, Slug.IsValidSlug;
  }

  lemma LengthPart(lib: Library, p: Posting, status: Status)
    ensures Part(lib, p, status, LengthDetails(lib, p.experience, p.currency), 6, 8)
  {
    hide Trim, ByteLength, Slug.IsValidSlug;
  }

  lemma SalaryPart(lib: Library, p: Posting, status: Status)
    ensures Part(lib, p, status, SalaryDetails(p.salaryMin, p.salaryMax), 8, 11)
  {
    hide Trim, ByteLength, Slug.IsValidSlug;
  }

  lemma FieldsPart(lib: Library, p: Posting, status: Status)
    ensures Part(lib, p, status, FieldDetails(lib, p.customFields), 12, 13)
  {
    hide SchemaDetails, FormRules.Breaks, FormRules.Before;
    var ds := SchemaDetails(lib, p.customFields, |p.customFields|).0;
    var all := FieldDetails(lib, p.customFields);
    FormRules.SchemaDetailsExactly(lib, p.customFields);
    assert forall k :: 0 <= k < |ds| ==> ds[k] in ds && all[k] == InCustomField(ds[k]);
    forall d | 12 <= Rank(d) < 13 && Breaks(lib, p, status, d)
      ensures d in all
    {
      assert d.detail in ds;
      var k :| 0 <= k < |ds| && ds[k] == d.detail;
      assert all[k] == d;
    }
  }

  /** The validator reports exactly the issues that the posting or its status has, each once and in order. */
  lemma JobDetailsExactly(lib: Library, p: Posting, status: Status)
    ensures forall d :: d in JobDetails(lib, p, status) <==> Breaks(lib, p, status, d)
    ensures Ascending(JobDetails(lib, p, status))
  {
    hide Breaks, Ascending, Part, TextDetails, EnumDetails, LengthDetails, SalaryDetails, FieldDetails, If;
    hide Trim, Slug.IsValidSlug;
    TextPart(lib, p, status, 0);
    TextPart(lib, p, status, 1);
    TextPart(lib, p, status, 2);
    SinglePart(lib, p, status);
    EnumPart(lib, p, status);
    LengthPart(lib, p, status);
    SalaryPart(lib, p, status);
    FieldsPart(lib, p, status);
    var all := TextDetails(lib, p.title, 255, TitleRequired, TitleTooLong);
    all := JoinPart(lib, p, status, all,
                    TextDetails(lib, p.department, 100, DepartmentRequired, DepartmentTooLong), 1, 2);
    all := JoinPart(lib, p, status, all, TextDetails(lib, p.location, 150, LocationRequired, LocationTooLong), 2, 3);
    all := JoinPart(lib, p, status, all, If(lib.Trimmed(p.description) == "", DescriptionRequired), 3, 4);
    all := JoinPart(lib, p, status, all, EnumDetails(p.employmentType, status), 4, 6);
    all := JoinPart(lib, p, status, all, LengthDetails(lib, p.experience, p.currency), 6, 8);
    all := JoinPart(lib, p, status, all, SalaryDetails(p.salaryMin, p.salaryMax), 8, 11);
    all := JoinPart(lib, p, status, all, If(p.slug != "" && !Slug.IsValidSlug(p.slug), InvalidSlug), 11, 12);
    all := JoinPart(lib, p, status, all, FieldDetails(lib, p.customFields), 12, 13);
    WholePart(lib, p, status, all);
  }

  lemma JoinPart(lib: Library, p: Posting, status: Status, a: seq<JobDetail>, b: seq<JobDetail>, mid: nat, hi: nat)
    returns (all: seq<JobDetail>)
    requires mid <= hi && Part(lib, p, status, a, 0, mid) && Part(lib, p, status, b, mid, hi)
    ensures all == a + b && Part(lib, p, status, all, 0, hi)
  {
    all := a + b;
    PartsJoin(lib, p, status, a, b, 0, mid, hi);
  }

  lemma WholePart(lib: Library, p: Posting, status: Status, ds: seq<JobDetail>)
    requires Part(lib, p, status, ds, 0, 13)
    ensures Ascending(ds) && forall d :: d in ds <==> Breaks(lib, p, status, d)
  {
    hide Breaks, Ascending;
    assert forall d: JobDetail :: Rank(d) < 13;
  }

  // ---------- What a call stores ----------

  /** A refused call changes nothing; these are the reasons, the first that holds. */
  lemma RefusedExactly(lib: Library, b: Board, c: Call)
    requires !c.Delete?
    ensures Outcome(lib, b, c).Err? ==> Next(lib, b, c) == b
    ensures c.Update? && !c.found ==> Outcome(lib, b, c) == Err(StoreFailed)
    ensures c.Update? && c.found && c.id !in b.jobs ==> Outcome(lib, b, c) == Err(NotFound)
    ensures c.Create? || (c.found && c.id in b.jobs) ==>
      var checked :=
        if c.Create? then CheckedPosting(lib, c.posting) else UpdatedPosting(lib, b.jobs[c.id].posting, c.input);
      var status := if c.Create? then CreatedStatus(c.status) else Keep(c.input.status, b.jobs[c.id].status);
      && (Outcome(lib, b, c).Err? && Outcome(lib, b, c).error.Invalid? <==> exists d :: Breaks(lib, checked, status, d))
      && ((forall d :: !Breaks(lib, checked, status, d)) ==> (Outcome(lib, b, c).Ok? <==> c.stored))
  {
    hide Breaks, JobDetails, CheckedPosting, UpdatedPosting, Ascending;
    if c.Create? {
      var ds := JobDetails(lib, CheckedPosting(lib, c.posting), CreatedStatus(c.status));
      JobDetailsExactly(lib, CheckedPosting(lib, c.posting), CreatedStatus(c.status));
      assert ds != [] ==> ds[0] in ds;
    } else if c.found && c.id in b.jobs {
      var after := UpdatedJob(lib, b.jobs[c.id], c.input, c.at);
      var ds := JobDetails(lib, after.posting, after.status);
      JobDetailsExactly(lib, after.posting, after.status);
      assert ds != [] ==> ds[0] in ds;
    }
  }

  /** The job CreateJob stores, field by field: defaults for what is missing, required texts trimmed. */
  lemma CreateStores(lib: Library, b: Board, c: Call)
    requires c.Create? && Outcome(lib, b, c).Ok?
    ensures c.newId in Next(lib, b, c).jobs
    ensures Next(lib, b, c).jobs == b.jobs[c.newId := Next(lib, b, c).jobs[c.newId]]
    ensures var job, p := Next(lib, b, c).jobs[c.newId], c.posting;
      var q, blank := job.posting, (s: string) => Trim(s, lib.u.isSpace) == "";
      && job.id == c.newId
      && q.slug == (if blank(p.slug) then Slug.Generated(lib.u, p.title) else Trim(p.slug, lib.u.isSpace))
      && q.title == Trim(p.title, lib.u.isSpace) && q.department == Trim(p.department, lib.u.isSpace)
      && q.location == Trim(p.location, lib.u.isSpace) && q.description == Trim(p.description, lib.u.isSpace)
      && q.employmentType == (if p.employmentType == NoType then FullTime else p.employmentType)
      && q.experience == p.experience && q.salaryMin == p.salaryMin && q.salaryMax == p.salaryMax
      && q.currency == (if blank(p.currency) then "USD" else Trim(p.currency, lib.u.isSpace))
      && q.customFields == p.customFields
      && job.status == (if c.status == NoStatus then Draft else c.status)
      && job.publishedAt == (if c.status == Published then Some(c.at) else None)
  {
    hide JobDetails, Trim, Slug.Generated;
  }

  /** A text that an update may give. */
  predicate TextKept(lib: Library, given: Option<string>, before: string, after: string) {
    if given.Some? then after == Trim(given.value, lib.u.isSpace) else after == before
  }

  predicate Kept<T(==)>(given: Option<T>, before: T, after: T) {
    if given.Some? then after == given.value else after == before
  }

  /** The job UpdateJob stores, field by field: each as it was unless the input gives another value for it. */
  lemma UpdateStores(lib: Library, b: Board, c: Call)
    requires c.Update? && Outcome(lib, b, c).Ok?
    ensures c.id in b.jobs && c.id in Next(lib, b, c).jobs
    ensures b.jobs[c.id].id == c.id ==> Next(lib, b, c).jobs == b.jobs[c.id := Next(lib, b, c).jobs[c.id]]
    ensures b.jobs[c.id].id == c.id ==>
      var old_, new_, input := b.jobs[c.id], Next(lib, b, c).jobs[c.id], c.input;
      var p, q := old_.posting, new_.posting;
      && new_.id == c.id
      && TextKept(lib, input.slug, p.slug, q.slug)
      && TextKept(lib, input.title, p.title, q.title)
      && TextKept(lib, input.department, p.department, q.department)
      && TextKept(lib, input.location, p.location, q.location)
      && TextKept(lib, input.currency, p.currency, q.currency)
      && TextKept(lib, input.description, p.description, q.description)
      && Kept(input.employmentType, p.employmentType, q.employmentType)
      && Kept(input.customFields, p.customFields, q.customFields)
      && Kept(input.status, old_.status, new_.status)
      && q.experience == (if input.experience.Some? then input.experience else p.experience)
      && q.salaryMin == (if input.salaryMin.Some? then input.salaryMin else p.salaryMin)
      && q.salaryMax == (if input.salaryMax.Some? then input.salaryMax else p.salaryMax)
      && new_.publishedAt ==
         (if old_.publishedAt.None? && input.status == Some(Published) then Some(c.at) else old_.publishedAt)
  {
    hide JobDetails, Trim;
  }

  /** The status stored before the call, if there was a job. */
  function StatusIn(b: Board, id: string): Option<Status> {
    if id in b.jobs then Some(b.jobs[id].status) else None
  }

  /**
   A stored job is announced as published if and only if it was not published before the call and is
   after it, and as archived if and only if an update archived it. Nothing else is announced.
   */
  lemma AnnouncedExactly(lib: Library, b: Board, c: Call)
    requires !c.Delete? && Outcome(lib, b, c).Ok?
    requires c.Update? ==> b.jobs[c.id].id == c.id
    requires c.Create? ==> c.newId !in b.jobs
    ensures var b', id := Next(lib, b, c), if c.Create? then c.newId else c.id;
      && id in b'.jobs
      && var before, job := StatusIn(b, id), b'.jobs[id];
         b'.events == b.events +
           (if job.status == Published && before != Some(Published) then [Event(JobPublished, job)]
            else if c.Update? && job.status == Archived && before != Some(Archived) then [Event(JobArchived, job)]
            else [])
  {
    hide JobDetails, CheckedPosting, UpdatedPosting, StoredPosting;
  }
}
