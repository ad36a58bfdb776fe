/**
 Jobs and what ValidateJobInput asks of them.
 */
module Job {
  import opened Text
  import opened Wrappers
  import opened CustomForm
  import Slug

  datatype EmploymentType = NoType | FullTime | PartTime | Contract | Internship | OtherType(name: string)

  datatype Status = NoStatus | Draft | Published | Archived | OtherStatus(name: string)

  /** What a posting says; its id, status and publication time belong to its lifecycle. */
  datatype Posting = Posting(
    slug: string,
    title: string,
    department: string,
    location: string,
    employmentType: EmploymentType,
    experience: Option<string>,
    salaryMin: Option<real>,
    salaryMax: Option<real>,
    currency: string,
    description: string,
    customFields: seq<Field>)

  datatype Job = Job(id: string, posting: Posting, status: Status, publishedAt: Option<int>)

  datatype JobDetail =
    | TitleRequired | TitleTooLong
    | DepartmentRequired | DepartmentTooLong
    | LocationRequired | LocationTooLong
    | DescriptionRequired
    | InvalidEmploymentType | InvalidStatus
    | ExperienceTooLong | CurrencyTooLong
    | SalaryMinNegative | SalaryMaxNegative | SalaryMinAboveMax
    | InvalidSlug
    | InCustomField(detail: SchemaDetail)

  function If(c: bool, d: JobDetail): seq<JobDetail> {
    if c then [d] else []
  }

  /** A required text of at most `max` bytes once trimmed. */
  function TextDetails(lib: Library, s: string, max: nat, required: JobDetail, tooLong: JobDetail): seq<JobDetail> {
    var t := lib.Trimmed(s);
    if t == "" then [required] else If(ByteLength(t) > max, tooLong)
  }

  function SalaryDetails(min: Option<real>, max: Option<real>): seq<JobDetail> {
    If(min.Some? && min.value < 0.0, SalaryMinNegative)
    + If(max.Some? && max.value < 0.0, SalaryMaxNegative)
    + If(min.Some? && max.Some? && min.value > max.value, SalaryMinAboveMax)
  }

  function FieldDetails(lib: Library, fields: seq<Field>): seq<JobDetail> {
    var ds := SchemaDetails(lib, fields, |fields|).0;
    seq(|ds|, k requires 0 <= k < |ds| => InCustomField(ds[k]))
  }

  function EnumDetails(t: EmploymentType, status: Status): seq<JobDetail> {
    If(t.OtherType?, InvalidEmploymentType) + If(status.OtherStatus?, InvalidStatus)
  }

  function LengthDetails(lib: Library, experience: Option<string>, currency: string): seq<JobDetail> {
    If(experience.Some? && ByteLength(lib.Trimmed(experience.value)) > 50, ExperienceTooLong)
    + If(currency != "" && ByteLength(lib.Trimmed(currency)) > 3, CurrencyTooLong)
  }

  /** Everything ValidateJobInput finds, in its order. An empty slug is not checked. */
  function JobDetails(lib: Library, p: Posting, status: Status): seq<JobDetail> {
    TextDetails(lib, p.title, 255, TitleRequired, TitleTooLong)
    + TextDetails(lib, p.department, 100, DepartmentRequired, DepartmentTooLong)
    + TextDetails(lib, p.location, 150, LocationRequired, LocationTooLong)
    + If(lib.Trimmed(p.description) == "", DescriptionRequired)
    + EnumDetails(p.employmentType, status)
    + LengthDetails(lib, p.experience, p.currency)
    + SalaryDetails(p.salaryMin, p.salaryMax)
    + If(p.slug != "" && !Slug.IsValidSlug(p.slug), InvalidSlug)
    + FieldDetails(lib, p.customFields)
  }

  method CheckText(lib: Library, s: string, max: nat, required: JobDetail, tooLong: JobDetail)
    returns (d: seq<JobDetail>)
    ensures d == TextDetails(lib, s, max, required, tooLong)
  {
    var trimmed := lib.Trimmed(s);
    d := [];
    if trimmed == "" {
      d := [required];
    } else if ByteLength(trimmed) > max {
      d := [tooLong];
    }
  }

  method CheckEnums(t: EmploymentType, status: Status) returns (d: seq<JobDetail>)
    ensures d == EnumDetails(t, status)
  {
    d := [];
    if t != NoType && t.OtherType? {
      d := d + [InvalidEmploymentType];
    }
    if status != NoStatus && status.OtherStatus? {
      d := d + [InvalidStatus];
    }
  }

  method CheckLengths(lib: Library, experience: Option<string>, currency: string) returns (d: seq<JobDetail>)
    ensures d == LengthDetails(lib, experience, currency)
  {
    hide Trim, ByteLength;
    d := [];
    if experience.Some? && ByteLength(lib.Trimmed(experience.value)) > 50 {
      d := d + [ExperienceTooLong];
    }
    if currency != "" && ByteLength(lib.Trimmed(currency)) > 3 {
      d := d + [CurrencyTooLong];
    }
  }

  method CheckSalaries(min: Option<real>, max: Option<real>) returns (d: seq<JobDetail>)
    ensures d == SalaryDetails(min, max)
  {
    d := [];
    if min.Some? && min.value < 0.0 {
      d := d + [SalaryMinNegative];
    }
    if max.Some? && max.value < 0.0 {
      d := d + [SalaryMaxNegative];
    }
    if min.Some? && max.Some? && min.value > max.value {
      d := d + [SalaryMinAboveMax];
    }
  }

  method CheckFields(lib: Library, fields: seq<Field>) returns (d: seq<JobDetail>)
    ensures d == FieldDetails(lib, fields)
  {
    hide SchemaDetails;
    if fields == [] {
      NoFields(lib);
      return [];
    }
    var cf := ValidateCustomFields(lib, fields);
    d := seq(|cf|, k requires 0 <= k < |cf| => InCustomField(cf[k]));
  }

  method ValidateJobInput(lib: Library, p: Posting, status: Status) returns (details: seq<JobDetail>)
    ensures details == JobDetails(lib, p, status)
  {
    hide Trim, Slug.IsValidSlug, TextDetails, EnumDetails, LengthDetails, SalaryDetails, FieldDetails;
    details := CheckText(lib, p.title, 255, TitleRequired, TitleTooLong);
    var more := CheckText(lib, p.department, 100, DepartmentRequired, DepartmentTooLong);
    details := details + more;
    more := CheckText(lib, p.location, 150, LocationRequired, LocationTooLong);
    details := details + more;
    if lib.Trimmed(p.description) == "" {
      details := details + [DescriptionRequired];
    }
    more := CheckEnums(p.employmentType, status);
    details := details + more;
    more := CheckLengths(lib, p.experience, p.currency);
    details := details + more;
    more := CheckSalaries(p.salaryMin, p.salaryMax);
    details := details + more;
    if p.slug != "" && !Slug.IsValidSlug(p.slug) {
      details := details + [InvalidSlug];
    }
    more := CheckFields(lib, p.customFields);
    details := details + more;
  }

  lemma NoFields(lib: Library)
    ensures SchemaDetails(lib, [], 0).0 == []
  {
  }

  /** What a posting without details is: the meaning of the validation. */
  predicate GoodPosting(lib: Library, p: Posting) {
    && (forall s :: s in [p.title, p.department, p.location, p.description] ==> lib.Trimmed(s) != "")
    && ByteLength(lib.Trimmed(p.title)) <= 255 && ByteLength(lib.Trimmed(p.department)) <= 100
    && ByteLength(lib.Trimmed(p.location)) <= 150
    && !p.employmentType.OtherType?
    && (p.experience.Some? ==> ByteLength(lib.Trimmed(p.experience.value)) <= 50)
    && (p.currency != "" ==> ByteLength(lib.Trimmed(p.currency)) <= 3)
    && (p.salaryMin.Some? ==> p.salaryMin.value >= 0.0)
    && (p.salaryMax.Some? ==> p.salaryMax.value >= 0.0)
    && (p.salaryMin.Some? && p.salaryMax.Some? ==> p.salaryMin.value <= p.salaryMax.value)
    && (p.slug == "" || Slug.IsValidSlug(p.slug))
    && GoodSchema(lib, p.customFields)
  }

  lemma NoFieldDetails(lib: Library, fields: seq<Field>)
    ensures FieldDetails(lib, fields) == [] <==> GoodSchema(lib, fields)
  {
    hide SchemaDetails, GoodSchema;
    AcceptedSchemas(lib, fields);
    assert |FieldDetails(lib, fields)| == |SchemaDetails(lib, fields, |fields|).0|;
  }

  /** The validator finds nothing exactly in good postings with a known or absent status. */
  lemma ValidatedExactly(lib: Library, p: Posting, status: Status)
    ensures JobDetails(lib, p, status) == [] <==> GoodPosting(lib, p) && !status.OtherStatus?
  {
    hide Trim, ByteLength, Slug.IsValidSlug, SchemaDetails, GoodSchema, FieldDetails;
    NoFieldDetails(lib, p.customFields);
  }
}
