/**
 A job's custom questions and a candidate's answers to them: the schema checker, the answer checker,
 and what the one promises the other.
 */
module CustomForm {
  import opened Text

  datatype Field = Field(id: string, caption: string, kind: string, required: bool, options: seq<string>)

  /** A decoded JSON value. */
  datatype Value =
    | Null
    | Str(s: string)
    | Number(n: real)
    | Flag(b: bool)
    | List(items: seq<Value>)
    | Object(size: nat)

  /** The library functions the checkers call: URL and number syntax, printing, case folding. */
  datatype Library = Library(u: Unicode, isURL: string -> bool, isFloat: string -> bool, print_: Value -> string,
                             foldsTo: (char, char) -> bool, sampleURL: string)
  {
    /** What is asked of them: there is some URL, strings print as themselves, a rune folds to itself. */
    ghost predicate Laws() {
      && u.Laws()
      && isURL(Trim(sampleURL, u.isSpace)) && Trim(sampleURL, u.isSpace) != []
      && (forall s {:trigger print_(Str(s))} :: print_(Str(s)) == s)
      && (forall c {:trigger foldsTo(c, c)} :: foldsTo(c, c))
    }

    function Trimmed(s: string): string {
      Trim(s, u.isSpace)
    }

    predicate EqualFold(a: string, b: string) {
      |a| == |b| && forall i :: 0 <= i < |a| ==> foldsTo(a[i], b[i])
    }
  }

  // ---------- The schema checker ----------

  datatype SchemaIssue =
    | IdRequired | IdFormat | IdDuplicate
    | LabelRequired
    | TypeInvalid | OptionsMissing | OptionBlank(k: nat)

  datatype SchemaDetail = SchemaDetail(field: nat, issue: SchemaIssue)

  predicate IsIdChar(c: char) {
    IsAlnum(c) || c == '_' || c == '-'
  }

  /** The anchored regular expression [a-zA-Z0-9_-]+. */
  predicate IsFieldId(id: string) {
    id != [] && forall i :: 0 <= i < |id| ==> IsIdChar(id[i])
  }

  const KINDS: set<string> := {"text", "number", "url", "select", "textarea", "boolean"}

  function KindOf(lib: Library, f: Field): string {
    Lower(lib.u, lib.Trimmed(f.kind))
  }

  function IdIssues(lib: Library, i: nat, f: Field, seen: set<string>): seq<SchemaDetail> {
    var id := lib.Trimmed(f.id);
    if id == "" then [SchemaDetail(i, IdRequired)]
    else if !IsFieldId(id) then [SchemaDetail(i, IdFormat)]
    else if id in seen then [SchemaDetail(i, IdDuplicate)]
    else []
  }

  function BlankOptions(lib: Library, i: nat, options: seq<string>): seq<SchemaDetail> {
    if options == [] then []
    else
      var k := |options| - 1;
      BlankOptions(lib, i, options[..k])
      + if lib.Trimmed(options[k]) == "" then [SchemaDetail(i, OptionBlank(k))] else []
  }

  function OtherIssues(lib: Library, i: nat, f: Field): seq<SchemaDetail> {
    var caption := if lib.Trimmed(f.caption) == "" then [SchemaDetail(i, LabelRequired)] else [];
    var kind :=
      if KindOf(lib, f) !in KINDS then [SchemaDetail(i, TypeInvalid)]
      else if KindOf(lib, f) != "select" then []
      else if f.options == [] then [SchemaDetail(i, OptionsMissing)]
      else BlankOptions(lib, i, f.options);
    caption + kind
  }

  /** All details about the first `n` fields, in order, and the ids accepted among them. */
  function SchemaDetails(lib: Library, fields: seq<Field>, n: nat): (seq<SchemaDetail>, set<string>)
    requires n <= |fields|
  {
    if n == 0 then ([], {})
    else
      var (details, seen) := SchemaDetails(lib, fields, n - 1);
      var f := fields[n - 1];
      var ids := IdIssues(lib, n - 1, f, seen);
      (details + ids + OtherIssues(lib, n - 1, f), if ids == [] then seen + {lib.Trimmed(f.id)} else seen)
  }

  method ValidateCustomFields(lib: Library, fields: seq<Field>) returns (details: seq<SchemaDetail>)
    ensures details == SchemaDetails(lib, fields, |fields|).0
  {
    hide Trim, IsFieldId, BlankOptions;
    details := [];
    var seenIDs: set<string> := {};
    for i := 0 to |fields|
      invariant (details, seenIDs) == SchemaDetails(lib, fields, i)
    {
      var field := fields[i];
      ghost var before, seenBefore := details, seenIDs;
      var trimmedID := lib.Trimmed(field.id);
      if trimmedID == "" {
        details := details + [SchemaDetail(i, IdRequired)];
      } else if !IsFieldId(trimmedID) {
        details := details + [SchemaDetail(i, IdFormat)];
      } else if trimmedID in seenIDs {
        details := details + [SchemaDetail(i, IdDuplicate)];
      } else {
        seenIDs := seenIDs + {trimmedID};
      }
      assert details == before + IdIssues(lib, i, field, seenBefore);
      var others := CheckRest(lib, i, field);
      details := details + others;
    }
  }

  /** The checks of one field that do not look at other fields. */
  method CheckRest(lib: Library, i: nat, field: Field) returns (details: seq<SchemaDetail>)
    ensures details == OtherIssues(lib, i, field)
  {
    hide Trim, BlankOptions;
    details := [];
    if lib.Trimmed(field.caption) == "" {
      details := details + [SchemaDetail(i, LabelRequired)];
    }
    var fType := KindOf(lib, field);
    if fType in KINDS {
      if fType == "select" {
        if field.options == [] {
          details := details + [SchemaDetail(i, OptionsMissing)];
        } else {
          var blank := CheckOptions(lib, i, field.options);
          details := details + blank;
        }
      }
    } else {
      details := details + [SchemaDetail(i, TypeInvalid)];
    }
  }

  method CheckOptions(lib: Library, i: nat, options: seq<string>) returns (details: seq<SchemaDetail>)
    ensures details == BlankOptions(lib, i, options)
  {
    details := [];
    for k := 0 to |options|
      invariant details == BlankOptions(lib, i, options[..k])
    {
      assert options[..k + 1][..k] == options[..k];
      if lib.Trimmed(options[k]) == "" {
        details := details + [SchemaDetail(i, OptionBlank(k))];
      }
    }
    assert options[..|options|] == options;
  }

  predicate GoodField(lib: Library, f: Field) {
    && IsFieldId(lib.Trimmed(f.id)) && lib.Trimmed(f.caption) != "" && KindOf(lib, f) in KINDS
    && (KindOf(lib, f) == "select" ==>
          f.options != [] && forall k :: 0 <= k < |f.options| ==> lib.Trimmed(f.options[k]) != "")
  }

  /** Every field is well formed on its own, and no two trimmed ids are equal. */
  predicate GoodSchema(lib: Library, fields: seq<Field>) {
    && (forall i :: 0 <= i < |fields| ==> GoodField(lib, fields[i]))
    && (forall i, j :: 0 <= i < j < |fields| ==> lib.Trimmed(fields[i].id) != lib.Trimmed(fields[j].id))
  }

  lemma {:induction false} NoBlankOptions(lib: Library, i: nat, options: seq<string>)
    ensures BlankOptions(lib, i, options) == [] <==> forall k :: 0 <= k < |options| ==> lib.Trimmed(options[k]) != ""
  {
    hide Trim;
    if options != [] {
      var last := |options| - 1;
      NoBlankOptions(lib, i, options[..last]);
      assert forall k :: 0 <= k < last ==> options[..last][k] == options[k];
    }
  }

  lemma NoIssues(lib: Library, i: nat, f: Field, seen: set<string>)
    ensures IdIssues(lib, i, f, seen) == [] && OtherIssues(lib, i, f) == [] <==>
      GoodField(lib, f) && lib.Trimmed(f.id) !in seen
  {
    hide BlankOptions, Trim, KindOf;
    NoBlankOptions(lib, i, f.options);
  }

  function Ids(lib: Library, fields: seq<Field>): set<string> {
    set f | f in fields :: lib.Trimmed(f.id)
  }

  lemma NotAmongIds(lib: Library, fields: seq<Field>, id: string)
    ensures id !in Ids(lib, fields) <==> forall i :: 0 <= i < |fields| ==> lib.Trimmed(fields[i].id) != id
  {
    hide Trim;
    assert forall i :: 0 <= i < |fields| ==> fields[i] in fields;
    if id in Ids(lib, fields) {
      var f :| f in fields && lib.Trimmed(f.id) == id;
      var i :| 0 <= i < |fields| && fields[i] == f;
      assert lib.Trimmed(fields[i].id) == id;
    }
  }

  lemma GoodSchemaMore(lib: Library, front: seq<Field>, f: Field)
    ensures GoodSchema(lib, front + [f]) <==>
      GoodSchema(lib, front) && GoodField(lib, f) && lib.Trimmed(f.id) !in Ids(lib, front)
  {
    hide GoodField, Trim, Ids;
    var all, n := front + [f], |front|;
    NotAmongIds(lib, front, lib.Trimmed(f.id));
    assert forall i :: 0 <= i < n ==> all[i] == front[i];
    assert all[n] == f;
    assert GoodSchema(lib, all) ==> forall i :: 0 <= i < n ==> lib.Trimmed(all[i].id) != lib.Trimmed(all[n].id);
  }

  lemma MoreIds(lib: Library, front: seq<Field>, f: Field)
    ensures Ids(lib, front + [f]) == Ids(lib, front) + {lib.Trimmed(f.id)}
  {
    hide Trim;
  }

  /** The checker finds nothing exactly when the schema is good, and then it has seen every id. */
  lemma {:induction false} NoSchemaDetails(lib: Library, fields: seq<Field>, n: nat)
    requires n <= |fields|
    ensures SchemaDetails(lib, fields, n).0 == [] <==> GoodSchema(lib, fields[..n])
    ensures SchemaDetails(lib, fields, n).0 == [] ==> SchemaDetails(lib, fields, n).1 == Ids(lib, fields[..n])
  {
    hide IdIssues, OtherIssues, GoodField, GoodSchema, Ids, Trim;
    if n == 0 {
      EmptySchema(lib);
    } else {
      var f := fields[n - 1];
      var (details, seen) := SchemaDetails(lib, fields, n - 1);
      NoSchemaDetails(lib, fields, n - 1);
      NoIssues(lib, n - 1, f, seen);
      assert fields[..n] == fields[..n - 1] + [f];
      GoodSchemaMore(lib, fields[..n - 1], f);
      MoreIds(lib, fields[..n - 1], f);
    }
  }

  lemma EmptySchema(lib: Library)
    ensures GoodSchema(lib, []) && Ids(lib, []) == {}
  {
  }

  /** The same, for the method's result. */
  lemma AcceptedSchemas(lib: Library, fields: seq<Field>)
    ensures SchemaDetails(lib, fields, |fields|).0 == [] <==> GoodSchema(lib, fields)
  {
    NoSchemaDetails(lib, fields, |fields|);
    assert fields[..|fields|] == fields;
  }

  // ---------- The answer checker ----------

  datatype AnswerIssue = Required | NotNumber | NotURL | NotBoolean | NotOption

  datatype AnswerDetail = AnswerDetail(fieldId: string, issue: AnswerIssue)

  predicate IsEmptyValue(lib: Library, v: Value) {
    match v
    case Null => true
    case Str(s) => lib.Trimmed(s) == ""
    case List(items) => items == []
    case Object(size) => size == 0
    case _ => false
  }

  predicate IsValidNumber(lib: Library, v: Value) {
    v.Number? || (v.Str? && lib.isFloat(lib.Trimmed(v.s)))
  }

  predicate IsValidURL(lib: Library, v: Value) {
    v.Str? && lib.Trimmed(v.s) != "" && lib.isURL(lib.Trimmed(v.s))
  }

  predicate IsValidBoolean(lib: Library, v: Value) {
    v.Flag? || (v.Str? && Lower(lib.u, lib.Trimmed(v.s)) in {"true", "false"})
  }

  predicate IsValidOption(lib: Library, v: Value, options: seq<string>) {
    exists k :: 0 <= k < |options| && lib.EqualFold(lib.Trimmed(options[k]), lib.Trimmed(lib.print_(v)))
  }

  function Answer(answers: map<string, Value>, id: string): Value {
    if id in answers then answers[id] else Null
  }

  /** The details about one answer, at most one; a missing answer and a null one count alike. */
  function AnswerIssues(lib: Library, f: Field, v: Value): (d: seq<AnswerDetail>)
    ensures |d| <= 1 && forall k :: 0 <= k < |d| ==> d[k].fieldId == f.id
  {
    var kind := Lower(lib.u, f.kind);
    if IsEmptyValue(lib, v) then (if f.required then [AnswerDetail(f.id, Required)] else [])
    else if kind == "number" && !IsValidNumber(lib, v) then [AnswerDetail(f.id, NotNumber)]
    else if kind == "url" && !IsValidURL(lib, v) then [AnswerDetail(f.id, NotURL)]
    else if kind == "boolean" && !IsValidBoolean(lib, v) then [AnswerDetail(f.id, NotBoolean)]
    else if kind == "select" && f.options != [] && !IsValidOption(lib, v, f.options) then
      [AnswerDetail(f.id, NotOption)]
    else []
  }

  /** Field by field, in the order of the schema. */
  function AnswerDetails(lib: Library, fields: seq<Field>, answers: map<string, Value>): seq<AnswerDetail> {
    if fields == [] then []
    else
      var last := |fields| - 1;
      AnswerDetails(lib, fields[..last], answers) + AnswerIssues(lib, fields[last], Answer(answers, fields[last].id))
  }

  method ValidateCustomAnswers(lib: Library, fields: seq<Field>, answers: map<string, Value>)
    returns (details: seq<AnswerDetail>)
    ensures details == AnswerDetails(lib, fields, answers)
  {
    details := [];
    for i := 0 to |fields|
      invariant details == AnswerDetails(lib, fields[..i], answers)
    {
      var field := fields[i];
      assert fields[..i + 1][..i] == fields[..i];
      var exists_ := field.id in answers;
      if field.required {
        if !exists_ || answers[field.id].Null? || IsEmptyValue(lib, answers[field.id]) {
          details := details + [AnswerDetail(field.id, Required)];
          continue;
        }
      }
      if exists_ && !answers[field.id].Null? && !IsEmptyValue(lib, answers[field.id]) {
        var val, kind := answers[field.id], Lower(lib.u, field.kind);
        if kind == "number" {
          if !IsValidNumber(lib, val) {
            details := details + [AnswerDetail(field.id, NotNumber)];
          }
        } else if kind == "url" {
          if !IsValidURL(lib, val) {
            details := details + [AnswerDetail(field.id, NotURL)];
          }
        } else if kind == "boolean" {
          if !IsValidBoolean(lib, val) {
            details := details + [AnswerDetail(field.id, NotBoolean)];
          }
        } else if kind == "select" {
          if |field.options| > 0 && !IsValidOption(lib, val, field.options) {
            details := details + [AnswerDetail(field.id, NotOption)];
          }
        }
      }
    }
    assert fields[..|fields|] == fields;
  }

  /** Detail `k` is the one about field `owners[k]`; the owners ascend, and every other field is in order. */
  ghost predicate Owned(lib: Library, fields: seq<Field>, answers: map<string, Value>,
                        details: seq<AnswerDetail>, owners: seq<nat>) {
    && |owners| == |details|
    && (forall k :: 0 <= k < |owners| ==>
          owners[k] < |fields| && details[k].fieldId == fields[owners[k]].id
          && AnswerIssues(lib, fields[owners[k]], Answer(answers, fields[owners[k]].id)) == [details[k]])
    && (forall j, k :: 0 <= j < k < |owners| ==> owners[j] < owners[k])
    && (forall i :: 0 <= i < |fields| && i !in owners ==>
          AnswerIssues(lib, fields[i], Answer(answers, fields[i].id)) == [])
  }

  /** One more field: it owns nothing if its answer is in order, and else the one detail at the end. */
  lemma OwnedMore(lib: Library, front: seq<Field>, f: Field, answers: map<string, Value>,
                  details: seq<AnswerDetail>, owners: seq<nat>)
    requires Owned(lib, front, answers, details, owners)
    ensures var issues := AnswerIssues(lib, f, Answer(answers, f.id));
      Owned(lib, front + [f], answers, details + issues, owners + if issues == [] then [] else [|front|])
  {
    hide AnswerIssues, Answer;
    var all, issues := front + [f], AnswerIssues(lib, f, Answer(answers, f.id));
    assert forall i :: 0 <= i < |front| ==> all[i] == front[i];
    if issues == [] {
      assert owners + [] == owners && details + [] == details;
    } else {
      assert issues == [issues[0]];
      assert forall i :: i in owners ==> i in owners + [|front|];
    }
  }

  lemma {:induction false} DetailsOwned(lib: Library, fields: seq<Field>, answers: map<string, Value>)
    returns (owners: seq<nat>)
    ensures Owned(lib, fields, answers, AnswerDetails(lib, fields, answers), owners)
  {
    hide AnswerIssues;
    owners := [];
    if fields != [] {
      hide Owned;
      var last := |fields| - 1;
      var front := DetailsOwned(lib, fields[..last], answers);
      OwnedMore(lib, fields[..last], fields[last], answers, AnswerDetails(lib, fields[..last], answers), front);
      owners := front + if AnswerIssues(lib, fields[last], Answer(answers, fields[last].id)) == [] then [] else [last];
      assert fields[..last] + [fields[last]] == fields;
    }
  }

  /**
   Answers to undeclared questions do not matter. Every field causes one detail or none, as its own
   answer says, and the details come in the order of the fields.
   */
  lemma {:induction false} OnlyDeclaredIds(lib: Library, fields: seq<Field>,
                                           a: map<string, Value>, b: map<string, Value>)
    requires forall i :: 0 <= i < |fields| ==> Answer(a, fields[i].id) == Answer(b, fields[i].id)
    ensures AnswerDetails(lib, fields, a) == AnswerDetails(lib, fields, b)
    ensures |AnswerDetails(lib, fields, a)| <= |fields|
    ensures exists owners :: Owned(lib, fields, a, AnswerDetails(lib, fields, a), owners)
  {
    hide AnswerIssues, Owned;
    if fields != [] {
      var last := |fields| - 1;
      assert forall i :: 0 <= i < last ==> fields[..last][i] == fields[i];
      OnlyDeclaredIds(lib, fields[..last], a, b);
    }
    var owners := DetailsOwned(lib, fields, a);
  }

  // ---------- Accepted schemas can be answered ----------

  function SampleFor(lib: Library, f: Field): Value {
    var kind := Lower(lib.u, f.kind);
    if kind == "number" then Number(0.0)
    else if kind == "url" then Str(lib.sampleURL)
    else if kind == "boolean" then Flag(true)
    else if kind == "select" && f.options != [] then Str(f.options[0])
    else Str("x")
  }

  function Sample(lib: Library, fields: seq<Field>): map<string, Value> {
    if fields == [] then map[]
    else
      var f := fields[|fields| - 1];
      Sample(lib, fields[..|fields| - 1])[f.id := SampleFor(lib, f)]
  }

  lemma FoldsToItself(lib: Library, s: string)
    requires lib.Laws()
    ensures lib.EqualFold(s, s)
  {
    assert forall i :: 0 <= i < |s| ==> lib.foldsTo(s[i], s[i]);
  }

  lemma SampleIsAnswer(lib: Library, f: Field)
    requires lib.Laws() && GoodField(lib, f)
    ensures AnswerIssues(lib, f, SampleFor(lib, f)) == []
  {
    hide Trim, IsFieldId;
    var kind := Lower(lib.u, f.kind);
    assert Trim("x", lib.u.isSpace) == "x" by {
      assert !lib.u.isSpace("x"[0]);
    }
    if kind == "select" {
      TrimLetters(lib.u, f.kind);
      assert KindOf(lib, f) == "select";
      var o := f.options[0];
      FoldsToItself(lib, lib.Trimmed(o));
      assert lib.print_(Str(o)) == o;
    }
  }

  lemma {:induction false} SampleHas(lib: Library, fields: seq<Field>, i: nat)
    requires i < |fields| && forall j, k :: 0 <= j < k < |fields| ==> fields[j].id != fields[k].id
    ensures fields[i].id in Sample(lib, fields) && Sample(lib, fields)[fields[i].id] == SampleFor(lib, fields[i])
  {
    hide SampleFor;
    var last := |fields| - 1;
    if i < last {
      assert forall j :: 0 <= j < last ==> fields[..last][j] == fields[j];
      SampleHas(lib, fields[..last], i);
    }
  }

  lemma {:induction false} NoDetailsIf(lib: Library, fields: seq<Field>, answers: map<string, Value>)
    requires forall i :: 0 <= i < |fields| ==> AnswerIssues(lib, fields[i], Answer(answers, fields[i].id)) == []
    ensures AnswerDetails(lib, fields, answers) == []
  {
    hide AnswerIssues;
    if fields != [] {
      var last := |fields| - 1;
      assert forall i :: 0 <= i < last ==> fields[..last][i] == fields[i];
      NoDetailsIf(lib, fields[..last], answers);
    }
  }

  /** Whatever schema is accepted, its raw ids are distinct and some answers to it are accepted. */
  lemma AcceptedIsAnswerable(lib: Library, fields: seq<Field>)
    requires lib.Laws() && SchemaDetails(lib, fields, |fields|).0 == []
    ensures forall i, j :: 0 <= i < j < |fields| ==> fields[i].id != fields[j].id
    ensures exists answers :: AnswerDetails(lib, fields, answers) == []
  {
    AcceptedSchemas(lib, fields);
    var answers := Sample(lib, fields);
    forall i | 0 <= i < |fields|
      ensures AnswerIssues(lib, fields[i], Answer(answers, fields[i].id)) == []
    {
      SampleHas(lib, fields, i);
      SampleIsAnswer(lib, fields[i]);
    }
    NoDetailsIf(lib, fields, answers);
  }

  // ---------- Where the two checkers disagree ----------

  /** The answer refused by the declared type of a field, going by the trimmed type the schema checker saw. */
  predicate WrongType(lib: Library, f: Field, v: Value) {
    var kind := KindOf(lib, f);
    || (kind == "number" && !IsValidNumber(lib, v))
    || (kind == "url" && !IsValidURL(lib, v))
    || (kind == "boolean" && !IsValidBoolean(lib, v))
    || (kind == "select" && !IsValidOption(lib, v, f.options))
  }

  lemma CheckedKindsAreTrimmed(lib: Library, kind: string)
    requires lib.Laws() && Lower(lib.u, kind) in {"number", "url", "boolean", "select"}
    ensures Trim(kind, lib.u.isSpace) == kind
  {
    hide Trim;
    TrimLetters(lib.u, kind);
  }

  /**
   The schema checker trims a field's type and the answer checker does not. So an answer of the wrong
   type to an accepted field is refused if and only if the type was written without surrounding space.
   */
  lemma TypesEnforcedExactly(lib: Library, f: Field, v: Value)
    requires lib.Laws() && GoodField(lib, f) && !IsEmptyValue(lib, v) && WrongType(lib, f, v)
    ensures AnswerIssues(lib, f, v) != [] <==> lib.Trimmed(f.kind) == f.kind
  {
    hide IsValidNumber, IsValidURL, IsValidBoolean, IsValidOption, Trim, IsEmptyValue, IsFieldId, Lower;
    if Lower(lib.u, f.kind) in {"number", "url", "boolean", "select"} {
      CheckedKindsAreTrimmed(lib, f.kind);
    }
  }

  /** A field whose type is written with a space in front, and a wrong answer that is let through. */
  lemma SpacedTypeLetsThrough(lib: Library)
    requires lib.Laws() && !lib.isFloat("x")
    ensures var f, v := Field("q", "Q", " number", false, []), Str("x");
      && SchemaDetails(lib, [f], 1).0 == []
      && !IsEmptyValue(lib, v) && WrongType(lib, f, v) && AnswerDetails(lib, [f], map["q" := v]) == []
  {
    hide Trim, Lower, IdIssues, OtherIssues, IsFieldId;
    var f, v := Field("q", "Q", " number", false, []), Str("x");
    SpacedNumber(lib);
    SpacedTypeGood(lib);
    AcceptedSchemas(lib, [f]);
    TrimOne(lib.u, 'x');
    TypesEnforcedExactly(lib, f, v);
    var answers := map["q" := v];
    assert AnswerDetails(lib, [f], answers) == AnswerDetails(lib, [f][..0], answers) + AnswerIssues(lib, f, v);
    assert lib.Trimmed(" number") != " number";
  }

  lemma SpacedNumber(lib: Library)
    requires lib.Laws()
    ensures lib.Trimmed(" number") == "number" && Lower(lib.u, "number") == "number"
  {
    hide Trim, Lower;
    var t: string := "number";
    assert IsAscii(t[0]) && IsAscii(t[5]);
    TrimFront(lib.u, t);
    assert [' '] + t == " number";
    LowerFixed(lib.u, t);
  }

  lemma SpacedTypeGood(lib: Library)
    requires lib.Laws()
    ensures var f := Field("q", "Q", " number", false, []);
      && GoodField(lib, f) && GoodSchema(lib, [f]) && KindOf(lib, f) == "number"
  {
    hide Trim, Lower;
    SpacedNumber(lib);
    TrimOne(lib.u, 'q');
    TrimOne(lib.u, 'Q');
  }

  lemma TrimOne(u: Unicode, c: char)
    requires u.Laws() && IsAlnum(c)
    ensures Trim([c], u.isSpace) == [c]
  {
    hide TrimLeft, TrimRight;
    assert IsAscii(c) && !u.isSpace([c][0]);
  }

  /** The laws can be met, with "x" no number. */
  lemma LawsSatisfiable()
    ensures exists lib: Library :: lib.Laws() && !lib.isFloat("x")
  {
    Text.LawsSatisfiable();
    var u: Unicode :| u.Laws();
    var lib := Library(u, (s: string) => s == "x", (s: string) => false, (v: Value) => if v.Str? then v.s else "",
                       (c: char, d: char) => c == d, "x");
    TrimOne(u, 'x');
    assert lib.Laws();
  }
}
