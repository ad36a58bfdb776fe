/**
 The job service: its methods over the store they update in place, each proved to make the change the
 state machine says.
 */
module JobService {
  import opened Text
  import opened Wrappers
  import opened CustomForm
  import opened Job
  import opened JobModel
  import opened JobLifecycle
  import Slug

  class JobService {
    const lib: Library
    // the job table
    var jobs: map<string, Job>
    // history: ids in use, events dispatched, changes stored
    ghost var usedIds: set<string>
    ghost var events: seq<Event>
    ghost var history: seq<Change>

    ghost function View(): Board
      reads this
    {
      Board(jobs, usedIds, events, history)
    }

    /** The service is in a state that a sequence of calls leads to. */
    ghost predicate Valid()
      reads this
    {
      Reachable(lib, View())
    }

    constructor (lib: Library)
      ensures Valid() && View() == INITIAL && this.lib == lib
    {
      this.lib := lib;
      jobs, usedIds, events, history := map[], {}, [], [];
      new;
      InitialReachable(lib);
    }

    /** DispatchEvent, whose error the service ignores. */
    ghost method Dispatch(e: Event)
      modifies this`events
      ensures events == old(events) + [e]
    {
      events := events + [e];
    }

    /** The store keeps a row. */
    method Store(before: Option<Job>, after: Job, at: int)
      modifies this`jobs, this`usedIds, this`history
      ensures jobs == old(jobs)[after.id := after]
      ensures usedIds == old(usedIds) + {after.id} && history == old(history) + [Change(before, after, at)]
    {
      jobs := jobs[after.id := after];
      usedIds := usedIds + {after.id};
      history := history + [Change(before, after, at)];
    }

    /** The defaults of CreateJob: a generated slug, full time, US dollars. */
    method WithDefaults(input: Posting) returns (checked: Posting)
      ensures checked == CheckedPosting(lib, input)
    {
      hide Slug.SlugOf, Trim;
      var slug := lib.Trimmed(input.slug);
      if slug == "" {
        slug := Slug.GenerateSlug(lib.u, input.title);
      }
      var empType := input.employmentType;
      if empType == NoType {
        empType := FullTime;
      }
      var currency := lib.Trimmed(input.currency);
      if currency == "" {
        currency := "USD";
      }
      checked := input.(slug := slug, employmentType := empType, currency := currency);
    }

    /** `newId` is NewID's result, `now` the clock's, `stored` whether the store accepts the row. */
    method CreateJob(input: Posting, givenStatus: Status, newId: string, now: int, stored: bool)
      returns (r: Result<Job, Error>)
      requires Valid() && newId !in usedIds
      modifies this
      ensures var c := Create(input, givenStatus, newId, now, stored);
        && View() == Next(lib, old(View()), c)
        && var o := Outcome(lib, old(View()), c);
           r == if o.Ok? then Ok(o.value.after) else Err(o.error)
      ensures Valid()
    {
      hide JobDetails, CheckedPosting, Trim, Reachable;
      ReachableNext(lib, View(), Create(input, givenStatus, newId, now, stored));
      var checked := WithDefaults(input);
      var status := givenStatus;
      if status == NoStatus {
        status := Draft;
      }
      var details := ValidateJobInput(lib, checked, status);
      if details != [] {
        return Err(Invalid(details));
      }
      var publishedAt := None;
      if status == Published {
        publishedAt := Some(now);
      }
      var job := Job(newId,
                     checked.(title := lib.Trimmed(input.title), department := lib.Trimmed(input.department),
                              location := lib.Trimmed(input.location), description := lib.Trimmed(input.description)),
                     status, publishedAt);
      assert job == CreatedJob(lib, input, givenStatus, newId, now);
      if !stored {
        return Err(StoreFailed);
      }
      Store(None, job, now);
      if job.status == Published {
        Dispatch(Event(JobPublished, job));
      }
      return Ok(job);
    }

    /** `found` is whether the read succeeds, `stored` whether the write does. */
    method UpdateJob(id: string, input: UpdateInput, now: int, found: bool, stored: bool)
      returns (r: Result<Job, Error>)
      requires Valid()
      modifies this
      ensures var c := Update(id, input, now, found, stored);
        && View() == Next(lib, old(View()), c)
        && var o := Outcome(lib, old(View()), c);
           r == if o.Ok? then Ok(o.value.after) else Err(o.error)
      ensures Valid()
    {
      hide JobDetails, UpdatedPosting, Reachable;
      ReachableNext(lib, View(), Update(id, input, now, found, stored));
      if !found {
        return Err(StoreFailed);
      }
      if id !in jobs {
        return Err(NotFound);
      }
      var job := jobs[id];
      var oldStatus := job.status;
      var posting := MergePosting(job.posting, input);
      var updatedStatus := job.status;
      if input.status.Some? {
        updatedStatus := input.status.value;
      }
      var details := ValidateJobInput(lib, posting, updatedStatus);
      if details != [] {
        return Err(Invalid(details));
      }
      ghost var before := job;
      job := job.(posting := posting);
      if input.status.Some? {
        if input.status.value == Published && job.publishedAt.None? {
          job := job.(publishedAt := Some(now));
        }
        job := job.(status := input.status.value);
      }
      assert job == UpdatedJob(lib, before, input, now);
      if !stored {
        return Err(StoreFailed);
      }
      Store(Some(jobs[id]), job, now);
      if oldStatus != Published && job.status == Published {
        Dispatch(Event(JobPublished, job));
      } else if oldStatus != Archived && job.status == Archived {
        Dispatch(Event(JobArchived, job));
      }
      return Ok(job);
    }

    /** The local variables of UpdateJob: each keeps the stored value unless the input gives one. */
    method MergePosting(p: Posting, input: UpdateInput) returns (q: Posting)
      ensures q == UpdatedPosting(lib, p, input)
    {
      hide Trim;
      q := p;
      if input.title.Some? {
        q := q.(title := lib.Trimmed(input.title.value));
      }
      if input.department.Some? {
        q := q.(department := lib.Trimmed(input.department.value));
      }
      if input.location.Some? {
        q := q.(location := lib.Trimmed(input.location.value));
      }
      if input.description.Some? {
        q := q.(description := lib.Trimmed(input.description.value));
      }
      if input.employmentType.Some? {
        q := q.(employmentType := input.employmentType.value);
      }
      if input.experience.Some? {
        q := q.(experience := input.experience);
      }
      q := MergeRest(q, input);
    }

    method MergeRest(p: Posting, input: UpdateInput) returns (q: Posting)
      ensures q == p.(salaryMin := KeepSome(input.salaryMin, p.salaryMin),
                      salaryMax := KeepSome(input.salaryMax, p.salaryMax),
                      currency := KeepTrimmed(lib, input.currency, p.currency),
                      slug := KeepTrimmed(lib, input.slug, p.slug),
                      customFields := Keep(input.customFields, p.customFields))
    {
      hide Trim;
      q := p;
      if input.salaryMin.Some? {
        q := q.(salaryMin := input.salaryMin);
      }
      if input.salaryMax.Some? {
        q := q.(salaryMax := input.salaryMax);
      }
      if input.currency.Some? {
        q := q.(currency := lib.Trimmed(input.currency.value));
      }
      if input.slug.Some? {
        q := q.(slug := lib.Trimmed(input.slug.value));
      }
      if input.customFields.Some? {
        q := q.(customFields := input.customFields.value);
      }
    }

    method DeleteJob(id: string, stored: bool)
      requires Valid()
      modifies this`jobs
      ensures Valid() && View() == Next(lib, old(View()), Delete(id, stored))
    {
      ReachableNext(lib, View(), Delete(id, stored));
      if stored {
        jobs := jobs - {id};
      }
    }
  }
}
