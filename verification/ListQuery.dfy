/**
 The list queries of the job and application repositories: how they are built, what PostgreSQL makes
 of them, and pagination. ILIKE is a parameter; the tables are snapshots in the order ORDER BY gives.
 */
module ListQuery {

  datatype Op = Equals | ILike

  datatype Arg = Text(s: string) | Number(n: int)

  /** `column op $placeholder`. Placeholders count from 1. */
  datatype Condition<C> = Condition(column: C, op: Op, placeholder: nat)

  /** SELECT ... WHERE the conditions LIMIT $limitAt OFFSET $offsetAt, with its arguments. */
  datatype Query<C> = Query(conditions: seq<Condition<C>>, args: seq<Arg>, limitAt: nat, offsetAt: nat)

  /** ILIKE: pattern and value. */
  type Like = (string, string) -> bool

  // ---------- What the database does ----------

  /** The argument a placeholder is bound to. */
  function Bound(args: seq<Arg>, placeholder: nat): Arg {
    if 1 <= placeholder <= |args| then args[placeholder - 1] else Number(0)
  }

  predicate Compare(like: Like, op: Op, value: string, arg: Arg) {
    arg.Text? && if op.Equals? then value == arg.s else like(arg.s, value)
  }

  predicate Where<C>(like: Like, conditions: seq<Condition<C>>, args: seq<Arg>, cell: C -> string) {
    forall i :: 0 <= i < |conditions| ==>
      Compare(like, conditions[i].op, cell(conditions[i].column), Bound(args, conditions[i].placeholder))
  }

  /** One row as a function from columns to values. */
  function RowOf<R, C>(cell: (R, C) -> string, r: R): C -> string {
    c => cell(r, c)
  }

  function Filter<R>(rows: seq<R>, keep: R -> bool): seq<R> {
    if rows == [] then [] else (if keep(rows[0]) then [rows[0]] else []) + Filter(rows[1..], keep)
  }

  function Clip(n: int, max: nat): (c: nat)
    ensures c <= max
  {
    if n < 0 then 0 else if n > max then max else n
  }

  function Slice<R>(rows: seq<R>, offset: int, limit: int): seq<R> {
    var from := Clip(offset, |rows|);
    rows[from..from + Clip(limit, |rows| - from)]
  }

  /** The rows a data query returns. */
  function Execute<R, C>(like: Like, q: Query<C>, table: seq<R>, cell: (R, C) -> string): seq<R> {
    var limit, offset := Bound(q.args, q.limitAt), Bound(q.args, q.offsetAt);
    if limit.Number? && offset.Number? then
      Slice(Filter(table, r => Where(like, q.conditions, q.args, RowOf(cell, r))), offset.n, limit.n)
    else []
  }

  // ---------- What the repositories build ----------

  /** One criterion of a filter. */
  datatype Criterion<C> = Criterion(column: C, op: Op, arg: string)

  predicate Satisfies<C>(like: Like, cs: seq<Criterion<C>>, cell: C -> string) {
    forall i :: 0 <= i < |cs| ==>
      if cs[i].op.Equals? then cell(cs[i].column) == cs[i].arg else like(cs[i].arg, cell(cs[i].column))
  }

  /** The i-th criterion becomes the i-th condition, with placeholder and argument of the same number. */
  ghost predicate Numbered<C>(cs: seq<Criterion<C>>, conditions: seq<Condition<C>>, args: seq<Arg>) {
    && |conditions| == |cs| <= |args|
    && forall i :: 0 <= i < |cs| ==>
         conditions[i] == Condition(cs[i].column, cs[i].op, i + 1) && args[i] == Text(cs[i].arg)
  }

  lemma NumberedMeansSatisfies<C>(like: Like, cs: seq<Criterion<C>>, conditions: seq<Condition<C>>, args: seq<Arg>,
                                  cell: C -> string)
    requires Numbered(cs, conditions, args)
    ensures Where(like, conditions, args, cell) <==> Satisfies(like, cs, cell)
  {
    assert forall i :: 0 <= i < |cs| ==> Bound(args, conditions[i].placeholder) == Text(cs[i].arg);
  }

  datatype JobColumn = Department | Location | EmploymentType | Status

  datatype JobFilter = JobFilter(department: string, location: string, employmentType: string, status: string,
                                 page: int, limit: int)

  datatype ApplicationColumn = JobId | Stage | CandidateEmail

  datatype ApplicationFilter = ApplicationFilter(jobId: string, stage: string, candidateEmail: string,
                                                 page: int, limit: int)

  function Contains(s: string): string {
    "%" + s + "%"
  }

  function Given<C>(c: Criterion<C>, value: string): seq<Criterion<C>> {
    if value == "" then [] else [c]
  }

  function JobCriteria(f: JobFilter): seq<Criterion<JobColumn>> {
    Given(Criterion(Department, Equals, f.department), f.department)
    + Given(Criterion(Location, ILike, Contains(f.location)), f.location)
    + Given(Criterion(EmploymentType, Equals, f.employmentType), f.employmentType)
    + Given(Criterion(Status, Equals, f.status), f.status)
  }

  function ApplicationCriteria(f: ApplicationFilter): seq<Criterion<ApplicationColumn>> {
    Given(Criterion(JobId, Equals, f.jobId), f.jobId)
    + Given(Criterion(Stage, Equals, f.stage), f.stage)
    + Given(Criterion(CandidateEmail, ILike, Contains(f.candidateEmail)), f.candidateEmail)
  }

  /** The filter as it reads: an empty criterion does not restrict. */
  predicate JobMatches(like: Like, f: JobFilter, cell: JobColumn -> string) {
    && (f.department != "" ==> cell(Department) == f.department)
    && (f.location != "" ==> like("%" + f.location + "%", cell(Location)))
    && (f.employmentType != "" ==> cell(EmploymentType) == f.employmentType)
    && (f.status != "" ==> cell(Status) == f.status)
  }

  predicate ApplicationMatches(like: Like, f: ApplicationFilter, cell: ApplicationColumn -> string) {
    && (f.jobId != "" ==> cell(JobId) == f.jobId)
    && (f.stage != "" ==> cell(Stage) == f.stage)
    && (f.candidateEmail != "" ==> like("%" + f.candidateEmail + "%", cell(CandidateEmail)))
  }

  lemma SatisfiesAppend<C>(like: Like, a: seq<Criterion<C>>, b: seq<Criterion<C>>, cell: C -> string)
    ensures Satisfies(like, a + b, cell) <==> Satisfies(like, a, cell) && Satisfies(like, b, cell)
  {
    var all := a + b;
    assert forall i :: 0 <= i < |a| ==> all[i] == a[i];
    assert forall i :: 0 <= i < |b| ==> all[|a| + i] == b[i];
  }

  lemma SatisfiesGiven<C>(like: Like, c: Criterion<C>, value: string, cell: C -> string)
    ensures Satisfies(like, Given(c, value), cell) <==>
      (value != "" ==> if c.op.Equals? then cell(c.column) == c.arg else like(c.arg, cell(c.column)))
  {
    assert value != "" ==> Given(c, value)[0] == c;
  }

  lemma JobCriteriaMean(like: Like, f: JobFilter, cell: JobColumn -> string)
    ensures Satisfies(like, JobCriteria(f), cell) <==> JobMatches(like, f, cell)
  {
    hide Satisfies, Given;
    var d, l := Given(Criterion(Department, Equals, f.department), f.department),
                Given(Criterion(Location, ILike, Contains(f.location)), f.location);
    var e, s := Given(Criterion(EmploymentType, Equals, f.employmentType), f.employmentType),
                Given(Criterion(Status, Equals, f.status), f.status);
    SatisfiesAppend(like, d + l + e, s, cell);
    SatisfiesAppend(like, d + l, e, cell);
    SatisfiesAppend(like, d, l, cell);
    SatisfiesGiven(like, Criterion(Department, Equals, f.department), f.department, cell);
    SatisfiesGiven(like, Criterion(Location, ILike, Contains(f.location)), f.location, cell);
    SatisfiesGiven(like, Criterion(EmploymentType, Equals, f.employmentType), f.employmentType, cell);
    SatisfiesGiven(like, Criterion(Status, Equals, f.status), f.status, cell);
  }

  lemma ApplicationCriteriaMean(like: Like, f: ApplicationFilter, cell: ApplicationColumn -> string)
    ensures Satisfies(like, ApplicationCriteria(f), cell) <==> ApplicationMatches(like, f, cell)
  {
    hide Satisfies, Given;
    var j, s, e := Given(Criterion(JobId, Equals, f.jobId), f.jobId), Given(Criterion(Stage, Equals, f.stage), f.stage),
                   Given(Criterion(CandidateEmail, ILike, Contains(f.candidateEmail)), f.candidateEmail);
    SatisfiesAppend(like, j + s, e, cell);
    SatisfiesAppend(like, j, s, cell);
    SatisfiesGiven(like, Criterion(JobId, Equals, f.jobId), f.jobId, cell);
    SatisfiesGiven(like, Criterion(Stage, Equals, f.stage), f.stage, cell);
    SatisfiesGiven(like, Criterion(CandidateEmail, ILike, Contains(f.candidateEmail)), f.candidateEmail, cell);
  }

  // ---------- Pagination ----------

  function ClampPage(page: int): int {
    if page < 1 then 1 else page
  }

  function ClampLimit(limit: int): (l: int)
    ensures 1 <= l <= 100
  {
    if limit < 1 then 20 else if limit > 100 then 100 else limit
  }

  function Page<R>(rows: seq<R>, page: int, limit: int): seq<R> {
    Slice(rows, (ClampPage(page) - 1) * ClampLimit(limit), ClampLimit(limit))
  }

  /** A data query built right: numbered criteria, then limit and offset in the next two places. */
  ghost predicate Built<C>(cs: seq<Criterion<C>>, page: int, limit: int, q: Query<C>) {
    && Numbered(cs, q.conditions, q.args) && |q.args| == |cs| + 2
    && q.limitAt == |cs| + 1 && q.offsetAt == |cs| + 2
    && q.args[|cs|] == Number(ClampLimit(limit))
    && q.args[|cs| + 1] == Number((ClampPage(page) - 1) * ClampLimit(limit))
  }

  method AddCriterion<C>(conditions: seq<Condition<C>>, args: seq<Arg>, argIdx: nat, column: C, op: Op, value: string,
                         ghost cs: seq<Criterion<C>>)
    returns (conditions': seq<Condition<C>>, args': seq<Arg>, argIdx': nat)
    requires Numbered(cs, conditions, args) && argIdx == |cs| + 1 == |args| + 1
    ensures Numbered(cs + [Criterion(column, op, value)], conditions', args')
    ensures argIdx' == |cs| + 2 == |args'| + 1
  {
    conditions' := conditions + [Condition(column, op, argIdx)];
    args' := args + [Text(value)];
    argIdx' := argIdx + 1;
  }

  /** The builder of jobRepository.List. */
  method BuildJobQuery(filter: JobFilter) returns (q: Query<JobColumn>)
    ensures Built(JobCriteria(filter), filter.page, filter.limit, q)
  {
    hide Numbered;
    var conditions: seq<Condition<JobColumn>>, args: seq<Arg>, argIdx := [], [], 1;
    NumberedNone<JobColumn>();
    ghost var cs: seq<Criterion<JobColumn>> := [];
    if filter.department != "" {
      conditions, args, argIdx := AddCriterion(conditions, args, argIdx, Department, Equals, filter.department, cs);
      cs := cs + [Criterion(Department, Equals, filter.department)];
    }
    if filter.location != "" {
      conditions, args, argIdx :=
        AddCriterion(conditions, args, argIdx, Location, ILike, "%" + filter.location + "%", cs);
      cs := cs + [Criterion(Location, ILike, "%" + filter.location + "%")];
    }
    if filter.employmentType != "" {
      conditions, args, argIdx :=
        AddCriterion(conditions, args, argIdx, EmploymentType, Equals, filter.employmentType, cs);
      cs := cs + [Criterion(EmploymentType, Equals, filter.employmentType)];
    }
    if filter.status != "" {
      conditions, args, argIdx := AddCriterion(conditions, args, argIdx, Status, Equals, filter.status, cs);
      cs := cs + [Criterion(Status, Equals, filter.status)];
    }
    assert cs == JobCriteria(filter);
    q := Finish(conditions, args, argIdx, filter.page, filter.limit, cs);
  }

  /** The builder of applicationRepository.List. */
  method BuildApplicationQuery(filter: ApplicationFilter) returns (q: Query<ApplicationColumn>)
    ensures Built(ApplicationCriteria(filter), filter.page, filter.limit, q)
  {
    hide Numbered;
    var conditions: seq<Condition<ApplicationColumn>>, args: seq<Arg>, argIdx := [], [], 1;
    NumberedNone<ApplicationColumn>();
    ghost var cs: seq<Criterion<ApplicationColumn>> := [];
    if filter.jobId != "" {
      conditions, args, argIdx := AddCriterion(conditions, args, argIdx, JobId, Equals, filter.jobId, cs);
      cs := cs + [Criterion(JobId, Equals, filter.jobId)];
    }
    if filter.stage != "" {
      conditions, args, argIdx := AddCriterion(conditions, args, argIdx, Stage, Equals, filter.stage, cs);
      cs := cs + [Criterion(Stage, Equals, filter.stage)];
    }
    if filter.candidateEmail != "" {
      conditions, args, argIdx :=
        AddCriterion(conditions, args, argIdx, CandidateEmail, ILike, "%" + filter.candidateEmail + "%", cs);
      cs := cs + [Criterion(CandidateEmail, ILike, "%" + filter.candidateEmail + "%")];
    }
    assert cs == ApplicationCriteria(filter);
    q := Finish(conditions, args, argIdx, filter.page, filter.limit, cs);
  }

  lemma NumberedNone<C>()
    ensures Numbered<C>([], [], [])
  {
  }

  /** The end both builders share: clamp, and append limit and offset. */
  method Finish<C>(conditions: seq<Condition<C>>, args: seq<Arg>, argIdx: nat, givenPage: int, givenLimit: int,
                   ghost cs: seq<Criterion<C>>)
    returns (q: Query<C>)
    requires Numbered(cs, conditions, args) && argIdx == |cs| + 1 == |args| + 1
    ensures Built(cs, givenPage, givenLimit, q)
  {
    var page := givenPage;
    if page < 1 {
      page := 1;
    }
    var limit := givenLimit;
    if limit < 1 {
      limit := 20;
    } else if limit > 100 {
      limit := 100;
    }
    var offset := (page - 1) * limit;
    q := Query(conditions, args + [Number(limit), Number(offset)], argIdx, argIdx + 1);
  }

  lemma {:induction false} FilterAgrees<R>(rows: seq<R>, p: R -> bool, q: R -> bool)
    requires forall r :: r in rows ==> p(r) == q(r)
    ensures Filter(rows, p) == Filter(rows, q)
  {
    if rows != [] {
      FilterAgrees(rows[1..], p, q);
    }
  }

  /** A query built from criteria selects, pages and clips the rows that satisfy them. */
  lemma BuiltMeans<R, C>(like: Like, cs: seq<Criterion<C>>, page: int, limit: int, q: Query<C>, table: seq<R>,
                         cell: (R, C) -> string, keep: R -> bool)
    requires Built(cs, page, limit, q)
    requires forall r :: r in table ==> keep(r) == Satisfies(like, cs, RowOf(cell, r))
    ensures Execute(like, q, table, cell) == Page(Filter(table, keep), page, limit)
  {
    hide Where, Satisfies;
    var where := (r: R) => Where(like, q.conditions, q.args, RowOf(cell, r));
    forall r | r in table
      ensures where(r) == keep(r)
    {
      NumberedMeansSatisfies(like, cs, q.conditions, q.args, RowOf(cell, r));
    }
    FilterAgrees(table, where, keep);
    assert Bound(q.args, q.limitAt) == Number(ClampLimit(limit));
    assert Bound(q.args, q.offsetAt) == Number((ClampPage(page) - 1) * ClampLimit(limit));
  }

  function MatchingJobs<R>(like: Like, f: JobFilter, table: seq<R>, cell: (R, JobColumn) -> string): seq<R> {
    Filter(table, r => JobMatches(like, f, RowOf(cell, r)))
  }

  function MatchingApplications<R>(like: Like, f: ApplicationFilter, table: seq<R>,
                                   cell: (R, ApplicationColumn) -> string): seq<R> {
    Filter(table, r => ApplicationMatches(like, f, RowOf(cell, r)))
  }

  /** jobRepository.List: the page and the total are those of the filter applied directly. */
  method ListJobs<R>(like: Like, filter: JobFilter, table: seq<R>, cell: (R, JobColumn) -> string)
    returns (jobs: seq<R>, total: nat)
    ensures jobs == Page(MatchingJobs(like, filter, table, cell), filter.page, filter.limit)
    ensures total == |MatchingJobs(like, filter, table, cell)|
  {
    hide JobMatches, JobCriteria, Satisfies, Page, Numbered;
    var q := BuildJobQuery(filter);
    var keep := (r: R) => JobMatches(like, filter, RowOf(cell, r));
    forall r | r in table
      ensures keep(r) == Satisfies(like, JobCriteria(filter), RowOf(cell, r))
    {
      JobCriteriaMean(like, filter, RowOf(cell, r));
    }
    BuiltMeans(like, JobCriteria(filter), filter.page, filter.limit, q, table, cell, keep);
    jobs := Execute(like, q, table, cell);
    total := CountRows(like, q, table, cell, JobCriteria(filter), keep);
  }

  /** applicationRepository.List. */
  method ListApplications<R>(like: Like, filter: ApplicationFilter, table: seq<R>,
                             cell: (R, ApplicationColumn) -> string)
    returns (apps: seq<R>, total: nat)
    ensures apps == Page(MatchingApplications(like, filter, table, cell), filter.page, filter.limit)
    ensures total == |MatchingApplications(like, filter, table, cell)|
  {
    hide ApplicationMatches, ApplicationCriteria, Satisfies, Page, Numbered;
    var q := BuildApplicationQuery(filter);
    var keep := (r: R) => ApplicationMatches(like, filter, RowOf(cell, r));
    forall r | r in table
      ensures keep(r) == Satisfies(like, ApplicationCriteria(filter), RowOf(cell, r))
    {
      ApplicationCriteriaMean(like, filter, RowOf(cell, r));
    }
    BuiltMeans(like, ApplicationCriteria(filter), filter.page, filter.limit, q, table, cell, keep);
    apps := Execute(like, q, table, cell);
    total := CountRows(like, q, table, cell, ApplicationCriteria(filter), keep);
  }

  /** SELECT COUNT(*) with the same conditions, run with the arguments before limit and offset were added. */
  method CountRows<R, C>(like: Like, q: Query<C>, table: seq<R>, cell: (R, C) -> string,
                         ghost cs: seq<Criterion<C>>, ghost keep: R -> bool)
    returns (n: nat)
    requires Numbered(cs, q.conditions, q.args)
    requires forall r :: r in table ==> keep(r) == Satisfies(like, cs, RowOf(cell, r))
    ensures n == |Filter(table, keep)|
  {
    var args := q.args[..|q.conditions|];
    var where := (r: R) => Where(like, q.conditions, args, RowOf(cell, r));
    forall r | r in table
      ensures where(r) == keep(r)
    {
      NumberedMeansSatisfies(like, cs, q.conditions, args, RowOf(cell, r));
    }
    FilterAgrees(table, where, keep);
    n := |Filter(table, where)|;
  }

  // ---------- All the pages ----------

  /** The handlers' formula. */
  function TotalPages(total: nat, limit: int): nat
    requires limit >= 1
  {
    if total > 0 then (total + limit - 1) / limit else 0
  }

  /** What the handlers make of the limit in the URL: absent is 20, large is cut to 100, below 1 refused. */
  function HandlerLimit(given: int): int
    requires given >= 1
  {
    if given > 100 then 100 else given
  }

  function Pages<R>(rows: seq<R>, n: nat, limit: int): seq<R> {
    if n == 0 then [] else Pages(rows, n - 1, limit) + Page(rows, n, limit)
  }

  lemma PageIsSlice<R>(rows: seq<R>, p: int, limit: int)
    requires 1 <= p && 1 <= limit <= 100
    ensures (p - 1) * limit >= 0
    ensures Page(rows, p, limit) == Slice(rows, (p - 1) * limit, limit)
  {
    hide Slice;
  }

  /** A slice goes on where the rows before it end, and is empty only past the last row. */
  lemma SliceGoesOn<R>(rows: seq<R>, offset: nat, limit: nat)
    ensures rows[..Clip(offset, |rows|)] + Slice(rows, offset, limit) == rows[..Clip(offset + limit, |rows|)]
    ensures limit >= 1 ==> (Slice(rows, offset, limit) != [] <==> offset < |rows|)
  {
  }

  lemma {:induction false} PagesArePrefix<R>(rows: seq<R>, n: nat, limit: int)
    requires 1 <= limit <= 100
    ensures n * limit >= 0
    ensures Pages(rows, n, limit) == rows[..Clip(n * limit, |rows|)]
  {
    hide Page, Slice, Clip;
    if n == 0 {
      NoRows(rows);
    } else {
      PagesArePrefix(rows, n - 1, limit);
      PageIsSlice(rows, n, limit);
      SliceGoesOn(rows, (n - 1) * limit, limit);
      NextProduct(n, limit);
    }
  }

  lemma NoRows<R>(rows: seq<R>)
    ensures rows[..Clip(0, |rows|)] == []
  {
  }

  lemma NextProduct(n: int, limit: int)
    ensures (n - 1) * limit + limit == n * limit
  {
  }

  /** The last page ends at or after the last row, and starts before it. */
  lemma EnoughPages(total: nat, limit: int)
    requires limit >= 1
    ensures TotalPages(total, limit) * limit >= total
    ensures total > 0 ==> (TotalPages(total, limit) - 1) * limit < total
  {
    if total > 0 {
      var n := (total + limit - 1) / limit;
      assert total + limit - 1 == n * limit + (total + limit - 1) % limit;
      assert (n - 1) * limit == n * limit - limit;
    }
  }

  lemma PageNonempty<R>(rows: seq<R>, p: nat, limit: int)
    requires 1 <= p && 1 <= limit <= 100
    ensures Page(rows, p, limit) != [] <==> (p - 1) * limit < |rows|
  {
    hide Page, Slice;
    PageIsSlice(rows, p, limit);
    SliceGoesOn(rows, (p - 1) * limit, limit);
  }

  lemma Product(a: nat, b: nat, c: nat)
    requires a <= b
    ensures a * c <= b * c
  {
    assert b * c == a * c + (b - a) * c;
  }

  /**
   Pages 1 to totalPages, one after the other, are all the rows, none twice and none missing; none of
   these pages is empty, and every later one is.
   */
  lemma PagesPartition<R>(rows: seq<R>, given: int, p: nat)
    requires given >= 1
    ensures HandlerLimit(given) == if given > 100 then 100 else given
    ensures var limit := HandlerLimit(given);
      var n := TotalPages(|rows|, limit);
      && ClampLimit(ClampLimit(limit)) == limit
      && Pages(rows, n, limit) == rows
      && (1 <= p ==> (Page(rows, p, limit) != [] <==> p <= n))
  {
    hide Page, TotalPages, Pages;
    var limit := HandlerLimit(given);
    var n := TotalPages(|rows|, limit);
    PagesArePrefix(rows, n, limit);
    EnoughPages(|rows|, limit);
    assert rows[..|rows|] == rows;
    if p > n {
      Product(n, p - 1, limit);
      PageNonempty(rows, p, limit);
    } else if p >= 1 {
      NoRowsNoPages(limit);
      Product(p - 1, n - 1, limit);
      PageNonempty(rows, p, limit);
    }
  }

  lemma NoRowsNoPages(limit: int)
    requires limit >= 1
    ensures TotalPages(0, limit) == 0
  {
  }

  // ---------- Rows, one by one ----------

  /** `at` lists, in order, the positions of the rows that are kept. */
  ghost predicate Selects<R>(rows: seq<R>, keep: R -> bool, kept: seq<R>, at: seq<nat>) {
    && |at| == |kept|
    && (forall k :: 0 <= k < |at| ==> at[k] < |rows| && kept[k] == rows[at[k]])
    && (forall j, k :: 0 <= j < k < |at| ==> at[j] < at[k])
    && (forall i :: 0 <= i < |rows| ==> (i in at <==> keep(rows[i])))
  }

  lemma {:induction false} FilterSnoc<R>(rows: seq<R>, r: R, keep: R -> bool)
    ensures Filter(rows + [r], keep) == Filter(rows, keep) + if keep(r) then [r] else []
  {
    if rows == [] {
      assert [r][1..] == [];
    } else {
      assert (rows + [r])[1..] == rows[1..] + [r];
      FilterSnoc(rows[1..], r, keep);
    }
  }

  lemma SelectsMore<R>(front: seq<R>, r: R, keep: R -> bool, kept: seq<R>, at: seq<nat>)
    requires Selects(front, keep, kept, at)
    ensures keep(r) ==> Selects(front + [r], keep, kept + [r], at + [|front|])
    ensures !keep(r) ==> Selects(front + [r], keep, kept, at)
  {
    var rows := front + [r];
    assert forall i :: 0 <= i < |front| ==> rows[i] == front[i];
    assert forall i :: i in at ==> i in at + [|front|];
  }

  lemma {:induction false} FilterExactly<R>(rows: seq<R>, keep: R -> bool) returns (at: seq<nat>)
    ensures Selects(rows, keep, Filter(rows, keep), at)
    decreases |rows|
  {
    at := [];
    if rows != [] {
      hide Selects;
      var front, r := rows[..|rows| - 1], rows[|rows| - 1];
      at := FilterExactly(front, keep);
      SelectsMore(front, r, keep, Filter(front, keep), at);
      FilterSnoc(front, r, keep);
      assert front + [r] == rows && Filter(front, keep) + [] == Filter(front, keep);
      at := if keep(r) then at + [|front|] else at;
    }
  }

  /** A page starts behind the pages before it. A page below 1 is the first, and a limit below 1 is 20. */
  lemma PageExactly<R>(rows: seq<R>, page: int, limit: int)
    ensures var l := if limit < 1 then 20 else if limit > 100 then 100 else limit;
      var from := if page < 1 then 0 else (page - 1) * l;
      && from >= 0
      && |Page(rows, page, limit)|
         == (if from >= |rows| then 0 else if |rows| - from < l then |rows| - from else l)
      && forall k :: 0 <= k < |Page(rows, page, limit)| ==>
           from + k < |rows| && Page(rows, page, limit)[k] == rows[from + k]
  {
    hide Slice;
    var l := if limit < 1 then 20 else if limit > 100 then 100 else limit;
    var from := if page < 1 then 0 else (page - 1) * l;
    Positive(page, l);
    assert (ClampPage(page) - 1) * ClampLimit(limit) == from;
    SliceExactly(rows, from, l);
  }

  lemma Positive(page: int, l: int)
    requires l > 0
    ensures page >= 1 ==> (page - 1) * l >= 0
    ensures (1 - 1) * l == 0
  {
  }

  lemma SliceExactly<R>(rows: seq<R>, from: nat, l: nat)
    ensures |Slice(rows, from, l)| == (if from >= |rows| then 0 else if |rows| - from < l then |rows| - from else l)
    ensures forall k :: 0 <= k < |Slice(rows, from, l)| ==>
      from + k < |rows| && Slice(rows, from, l)[k] == rows[from + k]
  {
  }

  /** The matching jobs: all rows that meet every criterion that is given, in the order of the table. */
  lemma MatchingJobsExactly<R>(like: Like, f: JobFilter, table: seq<R>, cell: (R, JobColumn) -> string)
    returns (at: seq<nat>)
    ensures |at| == |MatchingJobs(like, f, table, cell)|
    ensures forall k :: 0 <= k < |at| ==> at[k] < |table| && MatchingJobs(like, f, table, cell)[k] == table[at[k]]
    ensures forall j, k :: 0 <= j < k < |at| ==> at[j] < at[k]
    ensures forall i :: 0 <= i < |table| ==>
      (i in at <==>
        && (f.department == "" || cell(table[i], Department) == f.department)
        && (f.location == "" || like("%" + f.location + "%", cell(table[i], Location)))
        && (f.employmentType == "" || cell(table[i], EmploymentType) == f.employmentType)
        && (f.status == "" || cell(table[i], Status) == f.status))
  {
    hide Filter;
    var keep := (r: R) => JobMatches(like, f, RowOf(cell, r));
    at := FilterExactly(table, keep);
    forall i | 0 <= i < |table|
      ensures keep(table[i]) == JobMatches(like, f, RowOf(cell, table[i]))
    {
    }
  }

  /** The same for applications. */
  lemma MatchingApplicationsExactly<R>(like: Like, f: ApplicationFilter, table: seq<R>,
                                       cell: (R, ApplicationColumn) -> string)
    returns (at: seq<nat>)
    ensures |at| == |MatchingApplications(like, f, table, cell)|
    ensures forall k :: 0 <= k < |at| ==>
      at[k] < |table| && MatchingApplications(like, f, table, cell)[k] == table[at[k]]
    ensures forall j, k :: 0 <= j < k < |at| ==> at[j] < at[k]
    ensures forall i :: 0 <= i < |table| ==>
      (i in at <==>
        && (f.jobId == "" || cell(table[i], JobId) == f.jobId)
        && (f.stage == "" || cell(table[i], Stage) == f.stage)
        && (f.candidateEmail == "" || like("%" + f.candidateEmail + "%", cell(table[i], CandidateEmail))))
  {
    hide Filter;
    var keep := (r: R) => ApplicationMatches(like, f, RowOf(cell, r));
    at := FilterExactly(table, keep);
    forall i | 0 <= i < |table|
      ensures keep(table[i]) == ApplicationMatches(like, f, RowOf(cell, table[i]))
    {
    }
  }
}
