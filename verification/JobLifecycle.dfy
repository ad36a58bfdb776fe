/**
 What every sequence of CreateJob, UpdateJob and DeleteJob calls keeps.
 */
module JobLifecycle {
  import opened Text
  import opened Wrappers
  import opened CustomForm
  import opened Job
  import opened JobModel
  import Slug

  /** The last event about job `id`. */
  function LastKind(events: seq<Event>, id: string): Option<Kind> {
    if events == [] then None
    else
      var e := events[|events| - 1];
      if e.job.id == id then Some(e.kind) else LastKind(events[..|events| - 1], id)
  }

  /** When job `id` was first stored as published. */
  function FirstPublished(history: seq<Change>, id: string): Option<int> {
    if history == [] then None
    else
      var c, before := history[|history| - 1], FirstPublished(history[..|history| - 1], id);
      if before.Some? then before
      else if c.after.id == id && c.after.status == Published then Some(c.at) else None
  }

  /** How often job `id` went from unpublished, or from nothing, to published. */
  function Entries(history: seq<Change>, id: string): nat {
    if history == [] then 0
    else
      var c := history[|history| - 1];
      Entries(history[..|history| - 1], id)
      + if c.after.id == id && c.after.status == Published && (c.before.None? || c.before.value.status != Published)
        then 1 else 0
  }

  function PublishedEvents(events: seq<Event>, id: string): nat {
    if events == [] then 0
    else
      var e := events[|events| - 1];
      PublishedEvents(events[..|events| - 1], id) + if e.kind == JobPublished && e.job.id == id then 1 else 0
  }

  ghost predicate JobOk(lib: Library, b: Board, j: Job) {
    && JobDetails(lib, j.posting, j.status) == []
    && j.publishedAt == FirstPublished(b.history, j.id)
    && (j.status == Published ==> j.publishedAt.Some? && LastKind(b.events, j.id) == Some(JobPublished))
    && (j.status == Archived ==> LastKind(b.events, j.id) != Some(JobPublished))
  }

  /** Nothing was ever recorded about `id`. */
  ghost predicate Untouched(b: Board, id: string) {
    && LastKind(b.events, id) == None && FirstPublished(b.history, id) == None
    && PublishedEvents(b.events, id) == 0 && Entries(b.history, id) == 0
  }

  ghost predicate Inv(lib: Library, b: Board) {
    && (forall id :: id in b.jobs ==> b.jobs[id].id == id && id in b.usedIds && JobOk(lib, b, b.jobs[id]))
    && (forall id :: id !in b.usedIds ==> Untouched(b, id))
    && (forall id :: PublishedEvents(b.events, id) == Entries(b.history, id))
  }

  // ---------- One change ----------

  lemma EventsAfter(events: seq<Event>, c: Change, id: string)
    ensures c.after.id != id || EventsOf(c) == [] ==>
      LastKind(events + EventsOf(c), id) == LastKind(events, id)
      && PublishedEvents(events + EventsOf(c), id) == PublishedEvents(events, id)
    ensures c.after.id == id && EventsOf(c) != [] ==>
      LastKind(events + EventsOf(c), id) == Some(EventsOf(c)[0].kind)
      && PublishedEvents(events + EventsOf(c), id)
         == PublishedEvents(events, id) + if EventsOf(c)[0].kind == JobPublished then 1 else 0
  {
    var es := EventsOf(c);
    if es == [] {
      assert events + es == events;
    } else {
      assert (events + es)[..|events|] == events && es[0].job == c.after;
    }
  }

  lemma HistoryAfter(history: seq<Change>, c: Change, id: string)
    ensures FirstPublished(history + [c], id)
         == if FirstPublished(history, id).Some? then FirstPublished(history, id)
            else if c.after.id == id && c.after.status == Published then Some(c.at) else None
    ensures Entries(history + [c], id) == Entries(history, id)
      + if c.after.id == id && c.after.status == Published && (c.before.None? || c.before.value.status != Published)
        then 1 else 0
  {
    assert (history + [c])[..|history|] == history;
  }

  /** A change to `c.after.id` that keeps the rules, whatever the posting says. */
  ghost predicate Lawful(lib: Library, b: Board, c: Change) {
    && JobDetails(lib, c.after.posting, c.after.status) == []
    && (if c.before.Some? then
          && c.after.id in b.jobs && c.before.value == b.jobs[c.after.id]
          && c.after.publishedAt ==
             (if c.before.value.publishedAt.None? && c.after.status == Published then Some(c.at)
              else c.before.value.publishedAt)
        else
          && c.after.id !in b.usedIds
          && c.after.publishedAt == if c.after.status == Published then Some(c.at) else None)
  }

  lemma ChangedOk(lib: Library, b: Board, c: Change)
    requires Inv(lib, b) && Lawful(lib, b, c)
    ensures JobOk(lib, Record(b, c), c.after)
  {
    hide JobDetails, LastKind, FirstPublished, PublishedEvents, Entries;
    EventsAfter(b.events, c, c.after.id);
    HistoryAfter(b.history, c, c.after.id);
  }

  lemma OtherOk(lib: Library, b: Board, c: Change, id: string)
    requires id != c.after.id
    ensures Untouched(b, id) ==> Untouched(Record(b, c), id)
    ensures forall j: Job :: j.id == id && JobOk(lib, b, j) ==> JobOk(lib, Record(b, c), j)
  {
    hide JobDetails, LastKind, FirstPublished, PublishedEvents, Entries;
    EventsAfter(b.events, c, id);
    HistoryAfter(b.history, c, id);
  }

  lemma CountsAgree(lib: Library, b: Board, c: Change, id: string)
    requires Inv(lib, b)
    ensures PublishedEvents(Record(b, c).events, id) == Entries(Record(b, c).history, id)
  {
    hide JobDetails, LastKind, FirstPublished, PublishedEvents, Entries;
    EventsAfter(b.events, c, id);
    HistoryAfter(b.history, c, id);
  }

  lemma RecordKeepsInv(lib: Library, b: Board, c: Change)
    requires Inv(lib, b) && Lawful(lib, b, c)
    ensures Inv(lib, Record(b, c))
  {
    hide JobOk, Untouched, PublishedEvents, Entries, EventsOf, Lawful;
    var b' := Record(b, c);
    ChangedOk(lib, b, c);
    forall id | id in b'.jobs
      ensures b'.jobs[id].id == id && id in b'.usedIds && JobOk(lib, b', b'.jobs[id])
    {
      if id != c.after.id {
        OtherOk(lib, b, c, id);
      }
    }
    forall id | id !in b'.usedIds
      ensures Untouched(b', id)
    {
      OtherOk(lib, b, c, id);
    }
    forall id
      ensures PublishedEvents(b'.events, id) == Entries(b'.history, id)
    {
      CountsAgree(lib, b, c, id);
    }
  }

  // ---------- The calls make lawful changes ----------

  lemma TrimmedDetails(lib: Library, s: string, max: nat, required: JobDetail, tooLong: JobDetail)
    ensures TextDetails(lib, lib.Trimmed(s), max, required, tooLong) == TextDetails(lib, s, max, required, tooLong)
  {
    hide ByteLength, Trim;
    TrimTwice(s, lib.u.isSpace);
  }

  /** What is stored validates like what was checked: trimming twice is trimming once. */
  lemma StoredLikeChecked(lib: Library, p: Posting, status: Status)
    ensures JobDetails(lib, StoredPosting(lib, p), status) == JobDetails(lib, CheckedPosting(lib, p), status)
  {
    hide TextDetails, EnumDetails, LengthDetails, SalaryDetails, FieldDetails;
    hide Slug.IsValidSlug, Slug.Generated, Trim, OrElse;
    TrimmedDetails(lib, p.title, 255, TitleRequired, TitleTooLong);
    TrimmedDetails(lib, p.department, 100, DepartmentRequired, DepartmentTooLong);
    TrimmedDetails(lib, p.location, 150, LocationRequired, LocationTooLong);
    TrimTwice(p.description, lib.u.isSpace);
  }

  lemma CallsAreLawful(lib: Library, b: Board, c: Call)
    requires Inv(lib, b) && Enabled(b, c) && !c.Delete? && Outcome(lib, b, c).Ok?
    ensures Lawful(lib, b, Outcome(lib, b, c).value)
  {
    hide JobDetails, StoredPosting, CheckedPosting, UpdatedPosting, JobOk, Untouched, PublishedEvents, Entries;
    if c.Create? {
      StoredLikeChecked(lib, c.posting, CreatedStatus(c.status));
    } else {
      PublishedHasDate(lib, b, b.jobs[c.id]);
    }
  }

  lemma PublishedHasDate(lib: Library, b: Board, j: Job)
    ensures JobOk(lib, b, j) && j.status == Published ==> j.publishedAt.Some?
  {
  }

  lemma CallKeepsInv(lib: Library, b: Board, c: Call)
    requires Inv(lib, b) && Enabled(b, c)
    ensures Inv(lib, Next(lib, b, c))
  {
    hide JobOk, Outcome, Lawful, Record, Untouched, PublishedEvents, Entries;
    if !c.Delete? && Outcome(lib, b, c).Ok? {
      CallsAreLawful(lib, b, c);
      RecordKeepsInv(lib, b, Outcome(lib, b, c).value);
    } else if c.Delete? {
      DeleteKeepsInv(lib, b, c.id);
    }
  }

  lemma DeleteKeepsInv(lib: Library, b: Board, id: string)
    requires Inv(lib, b)
    ensures Inv(lib, b.(jobs := b.jobs - {id}))
  {
    hide JobDetails, LastKind, FirstPublished, PublishedEvents, Entries;
    var b' := b.(jobs := b.jobs - {id});
    assert forall j: Job :: JobOk(lib, b, j) ==> JobOk(lib, b', j);
    assert forall i :: Untouched(b, i) ==> Untouched(b', i);
  }

  lemma {:induction false} RunKeepsInv(lib: Library, b: Board, calls: seq<Call>)
    requires Inv(lib, b) && Runnable(lib, b, calls)
    ensures Inv(lib, Run(lib, b, calls))
    decreases |calls|
  {
    hide Inv, Next, Enabled;
    if calls != [] {
      CallKeepsInv(lib, b, calls[0]);
      RunKeepsInv(lib, Next(lib, b, calls[0]), calls[1..]);
    }
  }

  lemma InitialInv(lib: Library)
    ensures Inv(lib, INITIAL)
  {
  }

  // ---------- Over all runs ----------

  /** What some sequence of calls leads to. */
  ghost predicate Reachable(lib: Library, b: Board) {
    exists calls :: Runnable(lib, INITIAL, calls) && Run(lib, INITIAL, calls) == b
  }

  lemma {:induction false} RunMore(lib: Library, b: Board, calls: seq<Call>, c: Call)
    requires Runnable(lib, b, calls) && Enabled(Run(lib, b, calls), c)
    ensures Runnable(lib, b, calls + [c]) && Run(lib, b, calls + [c]) == Next(lib, Run(lib, b, calls), c)
    decreases |calls|
  {
    hide Next, Enabled;
    if calls == [] {
      assert [] + [c] == [c] && [c][1..] == [];
      assert Runnable(lib, Next(lib, b, c), []);
    } else {
      assert (calls + [c])[1..] == calls[1..] + [c];
      RunMore(lib, Next(lib, b, calls[0]), calls[1..], c);
    }
  }

  lemma ReachableNext(lib: Library, b: Board, c: Call)
    requires Reachable(lib, b) && Enabled(b, c)
    ensures Reachable(lib, Next(lib, b, c))
  {
    hide Next, Enabled;
    var calls :| Runnable(lib, INITIAL, calls) && Run(lib, INITIAL, calls) == b;
    RunMore(lib, INITIAL, calls, c);
  }

  lemma InitialReachable(lib: Library)
    ensures Reachable(lib, INITIAL)
  {
    assert Runnable(lib, INITIAL, []) && Run(lib, INITIAL, []) == INITIAL;
  }

  /** Stored jobs always validate again: in particular salary bounds stay in order under partial updates. */
  lemma StoredJobsValidate(lib: Library, calls: seq<Call>, id: string)
    requires Runnable(lib, INITIAL, calls) && id in Run(lib, INITIAL, calls).jobs
    ensures var j := Run(lib, INITIAL, calls).jobs[id];
      && GoodPosting(lib, j.posting) && !j.status.OtherStatus?
      && (j.posting.salaryMin.Some? && j.posting.salaryMax.Some? ==>
            0.0 <= j.posting.salaryMin.value <= j.posting.salaryMax.value)
  {
    hide JobDetails, Next, Enabled, Trim, ByteLength, Slug.IsValidSlug, GoodSchema;
    InitialInv(lib);
    RunKeepsInv(lib, INITIAL, calls);
    var j := Run(lib, INITIAL, calls).jobs[id];
    ValidatedExactly(lib, j.posting, j.status);
  }

  /**
   A published job has its publication time, that of its first entry into published; there was one
   job.published event for each entry; and the last event tells a published job from an archived one.
   */
  lemma LifecycleEvents(lib: Library, calls: seq<Call>, id: string)
    requires Runnable(lib, INITIAL, calls)
    ensures var b := Run(lib, INITIAL, calls);
      && PublishedEvents(b.events, id) == Entries(b.history, id)
      && (id in b.jobs ==>
            && b.jobs[id].publishedAt == FirstPublished(b.history, id)
            && (b.jobs[id].status == Published ==>
                  b.jobs[id].publishedAt.Some? && LastKind(b.events, id) == Some(JobPublished))
            && (b.jobs[id].status == Archived ==> LastKind(b.events, id) != Some(JobPublished)))
  {
    hide JobDetails, Next, Enabled, LastKind, FirstPublished, PublishedEvents, Entries;
    InitialInv(lib);
    RunKeepsInv(lib, INITIAL, calls);
  }

  lemma {:induction false} FirstPublishedStays(history: seq<Change>, more: seq<Change>, id: string)
    requires FirstPublished(history, id).Some?
    ensures FirstPublished(history + more, id) == FirstPublished(history, id)
  {
    if more == [] {
      assert history + more == history;
    } else {
      var last := |more| - 1;
      assert (history + more)[..|history| + last] == history + more[..last];
      FirstPublishedStays(history, more[..last], id);
    }
  }

  lemma {:induction false} HistoryGrows(lib: Library, b: Board, calls: seq<Call>)
    requires Runnable(lib, b, calls)
    ensures b.history <= Run(lib, b, calls).history
    decreases |calls|
  {
    if calls != [] {
      NextHistory(lib, b, calls[0]);
      HistoryGrows(lib, Next(lib, b, calls[0]), calls[1..]);
    }
  }

  lemma NextHistory(lib: Library, b: Board, c: Call)
    ensures b.history <= Next(lib, b, c).history
  {
    hide Outcome;
  }

  /** Once set, the publication time of a job never changes. */
  lemma PublishedAtFixed(lib: Library, b: Board, calls: seq<Call>, id: string)
    requires Inv(lib, b) && Runnable(lib, b, calls)
    requires id in b.jobs && b.jobs[id].publishedAt.Some?
    requires id in Run(lib, b, calls).jobs
    ensures Run(lib, b, calls).jobs[id].publishedAt == b.jobs[id].publishedAt
  {
    hide Next, Enabled, FirstPublished, LastKind, PublishedEvents, Entries, JobDetails;
    RunKeepsInv(lib, b, calls);
    HistoryGrows(lib, b, calls);
    var h, h' := b.history, Run(lib, b, calls).history;
    assert h' == h + h'[|h|..];
    FirstPublishedStays(h, h'[|h|..], id);
  }

  // ---------- Slugs ----------

  /** A created job always gets a valid slug: a given one is validated, a generated one is valid. */
  lemma CreatedSlugValid(lib: Library, b: Board, c: Call)
    requires c.Create? && Outcome(lib, b, c).Ok?
    ensures Slug.IsValidSlug(Outcome(lib, b, c).value.after.posting.slug)
  {
    hide Slug.IsValidSlug, Slug.SlugOf, Trim, TextDetails, EnumDetails, LengthDetails, SalaryDetails, FieldDetails;
    Slug.GeneratedIsValid(Lower(lib.u, Trim(c.posting.title, lib.u.isSpace)));
    NoEmptyValidSlug();
  }

  lemma NoEmptyValidSlug()
    ensures !Slug.IsValidSlug("")
  {
  }

  /** An accepted update leaves a valid slug if and only if it does not give a blank one. */
  lemma UpdatedSlugValidExactly(lib: Library, b: Board, c: Call)
    requires c.Update? && Outcome(lib, b, c).Ok? && Slug.IsValidSlug(b.jobs[c.id].posting.slug)
    ensures Slug.IsValidSlug(Outcome(lib, b, c).value.after.posting.slug) <==>
      !(c.input.slug.Some? && lib.Trimmed(c.input.slug.value) == "")
  {
    hide Slug.IsValidSlug, Trim, TextDetails, EnumDetails, LengthDetails, SalaryDetails, FieldDetails;
    NoEmptyValidSlug();
  }

  /** An update that gives a blank slug and nothing else. */
  const BLANK_SLUG := UpdateInput(Some(""), None, None, None, None, None, None, None, None, None, None, None)

  lemma BlankSlugAccepted(lib: Library, p: Posting, status: Status)
    requires JobDetails(lib, p, status) == []
    ensures JobDetails(lib, p.(slug := ""), status) == []
  {
    hide TextDetails, EnumDetails, LengthDetails, SalaryDetails, FieldDetails, Slug.IsValidSlug;
  }

  lemma BlankSlugMerged(lib: Library, p: Posting)
    ensures UpdatedPosting(lib, p, BLANK_SLUG) == p.(slug := "")
  {
    assert lib.Trimmed("") == "";
  }

  /** Whatever job is stored, such an update of it is accepted. */
  lemma BlankSlugStored(lib: Library, b: Board, id: string, at: int)
    requires Inv(lib, b) && id in b.jobs
    ensures var o := Outcome(lib, b, Update(id, BLANK_SLUG, at, true, true));
      o.Ok? && o.value.after.posting == b.jobs[id].posting.(slug := "")
  {
    hide JobDetails, LastKind, FirstPublished, PublishedEvents, Entries, UpdatedPosting;
    BlankSlugMerged(lib, b.jobs[id].posting);
    BlankSlugAccepted(lib, b.jobs[id].posting, b.jobs[id].status);
  }

  const SMALL := Posting("", "x", "x", "x", NoType, None, None, None, "", "x", [])

  lemma SmallIsGood(lib: Library)
    requires lib.Laws()
    ensures GoodPosting(lib, CheckedPosting(lib, SMALL)) && Slug.IsValidSlug(CheckedPosting(lib, SMALL).slug)
  {
    hide Trim, Slug.SlugOf, Slug.IsValidSlug, Lower, ByteLength, IsFieldId, KindOf;
    TrimShort(lib.u, "x");
    TrimShort(lib.u, "USD");
    assert Trim("", lib.u.isSpace) == "";
    Slug.GeneratedIsValid(Lower(lib.u, Trim("x", lib.u.isSpace)));
    NoEmptyValidSlug();
  }

  lemma TrimShort(u: Unicode, s: string)
    requires u.Laws() && s in {"x", "USD"}
    ensures Trim(s, u.isSpace) == s && 0 < ByteLength(s) <= 3
  {
    assert !u.isSpace(s[0]) && !u.isSpace(s[|s| - 1]);
    assert forall i :: 0 <= i < |s| ==> s[i] as int < 0x80;
    AsciiLength(s);
  }

  lemma {:induction false} AsciiLength(s: string)
    requires forall i :: 0 <= i < |s| ==> s[i] as int < 0x80
    ensures ByteLength(s) == |s|
  {
    if s != [] {
      AsciiLength(s[1..]);
    }
  }

  lemma BlankSlugNext(lib: Library, b: Board, id: string, at: int)
    requires Inv(lib, b) && id in b.jobs
    ensures var b' := Next(lib, b, Update(id, BLANK_SLUG, at, true, true));
      id in b'.jobs && b'.jobs[id].posting.slug == ""
  {
    hide JobOk, Untouched, PublishedEvents, Entries, JobDetails, UpdatedPosting;
    BlankSlugStored(lib, b, id, at);
  }

  /** Two calls after which a job is stored with an empty slug. */
  lemma BlankSlugRun(lib: Library)
    requires lib.Laws()
    ensures var calls := [Create(SMALL, NoStatus, "j", 0, true), Update("j", BLANK_SLUG, 0, true, true)];
      && Runnable(lib, INITIAL, calls)
      && "j" in Next(lib, INITIAL, calls[0]).jobs
      && Slug.IsValidSlug(Next(lib, INITIAL, calls[0]).jobs["j"].posting.slug)
      && "j" in Run(lib, INITIAL, calls).jobs && Run(lib, INITIAL, calls).jobs["j"].posting.slug == ""
  {
    hide Inv, Next, Slug.IsValidSlug;
    var create, update := Create(SMALL, NoStatus, "j", 0, true), Update("j", BLANK_SLUG, 0, true, true);
    SmallCreated(lib);
    InitialInv(lib);
    CallKeepsInv(lib, INITIAL, create);
    BlankSlugNext(lib, Next(lib, INITIAL, create), "j", 0);
    RunMore(lib, INITIAL, [], create);
    RunMore(lib, INITIAL, [create], update);
    assert [] + [create] == [create] && [create] + [update] == [create, update];
  }

  lemma SmallCreated(lib: Library)
    requires lib.Laws()
    ensures var b := Next(lib, INITIAL, Create(SMALL, NoStatus, "j", 0, true));
      "j" in b.jobs && Slug.IsValidSlug(b.jobs["j"].posting.slug)
  {
    hide JobDetails, GoodPosting, CheckedPosting, Slug.IsValidSlug;
    SmallIsGood(lib);
    ValidatedExactly(lib, CheckedPosting(lib, SMALL), Draft);
  }
}
