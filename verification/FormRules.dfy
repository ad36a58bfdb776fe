/**
 The rules of custom questions and answers, field by field and issue by issue, and that the two
 checkers report exactly what breaks them.
 */
module FormRules {
  import opened Text
  import opened CustomForm

  // ---------- Answers ----------

  /** No answer, or one with nothing in it. */
  predicate Blank(lib: Library, v: Value) {
    || v == Null
    || (v.Str? && Trim(v.s, lib.u.isSpace) == "")
    || (v.List? && |v.items| == 0)
    || (v.Object? && v.size == 0)
  }

  /** An answer that is not blank suits the type of its field, the case of the type aside. */
  predicate Fits(lib: Library, f: Field, v: Value) {
    var kind := Lower(lib.u, f.kind);
    && (kind == "number" ==> v.Number? || (v.Str? && lib.isFloat(Trim(v.s, lib.u.isSpace))))
    && (kind == "url" ==> v.Str? && lib.isURL(Trim(v.s, lib.u.isSpace)))
    && (kind == "boolean" ==> v.Flag? || (v.Str? && Lower(lib.u, Trim(v.s, lib.u.isSpace)) in {"true", "false"}))
    && (kind == "select" && |f.options| > 0 ==>
          exists k :: 0 <= k < |f.options| &&
            Folds(lib, Trim(f.options[k], lib.u.isSpace), Trim(lib.print_(v), lib.u.isSpace)))
  }

  predicate Folds(lib: Library, a: string, b: string) {
    |a| == |b| && forall i :: 0 <= i < |a| ==> lib.foldsTo(a[i], b[i])
  }

  /** The answer a form gives to a field; a question left out is answered by null. */
  function Given(answers: map<string, Value>, f: Field): Value {
    if f.id in answers then answers[f.id] else Null
  }

  predicate Answered(lib: Library, f: Field, v: Value) {
    if Blank(lib, v) then !f.required else Fits(lib, f, v)
  }

  /** One answer: what is reported about it, if anything. */
  lemma IssueExactly(lib: Library, f: Field, v: Value)
    ensures AnswerIssues(lib, f, v) == [] <==> Answered(lib, f, v)
    ensures !Answered(lib, f, v) ==>
      var kind := Lower(lib.u, f.kind);
      AnswerIssues(lib, f, v) == [AnswerDetail(f.id,
        if Blank(lib, v) then Required
        else if kind == "number" then NotNumber
        else if kind == "url" then NotURL
        else if kind == "boolean" then NotBoolean
        else NotOption)]
  {
    hide Trim, Lower;
    assert f.options != [] <==> |f.options| > 0;
    if v.Str? && Trim(v.s, lib.u.isSpace) != "" {
      assert !Blank(lib, v);
    }
    OptionsAgree(lib, f, v);
  }

  lemma OptionsAgree(lib: Library, f: Field, v: Value)
    ensures IsValidOption(lib, v, f.options) <==>
      exists k :: 0 <= k < |f.options| &&
        Folds(lib, Trim(f.options[k], lib.u.isSpace), Trim(lib.print_(v), lib.u.isSpace))
  {
    hide Trim;
    assert forall a, b :: Folds(lib, a, b) == lib.EqualFold(a, b);
  }

  /**
   Answers are accepted if and only if every required field has an answer that is not blank, and every
   answer that is not blank fits the type of its field.
   */
  lemma AnswersAcceptedExactly(lib: Library, fields: seq<Field>, answers: map<string, Value>)
    ensures AnswerDetails(lib, fields, answers) == [] <==>
      forall i :: 0 <= i < |fields| ==>
        && (fields[i].required ==> !Blank(lib, Given(answers, fields[i])))
        && (!Blank(lib, Given(answers, fields[i])) ==> Fits(lib, fields[i], Given(answers, fields[i])))
  {
    hide AnswerIssues, Blank, Fits;
    var owners := DetailsOwned(lib, fields, answers);
    forall i | 0 <= i < |fields|
      ensures AnswerIssues(lib, fields[i], Answer(answers, fields[i].id)) == [] <==>
        Answered(lib, fields[i], Given(answers, fields[i]))
    {
      IssueExactly(lib, fields[i], Given(answers, fields[i]));
    }
    if AnswerDetails(lib, fields, answers) != [] {
      var i := owners[0];
      assert AnswerIssues(lib, fields[i], Answer(answers, fields[i].id)) != [];
      assert !Answered(lib, fields[i], Given(answers, fields[i]));
    }
  }

  // ---------- Schemas ----------

  predicate IdLetter(c: char) {
    'a' <= c <= 'z' || 'A' <= c <= 'Z' || '0' <= c <= '9' || c == '_' || c == '-'
  }

  predicate PlainText(s: string) {
    s != "" && forall k :: 0 <= k < |s| ==> IdLetter(s[k])
  }

  /** What each issue says about field `i`. */
  predicate Breaks(lib: Library, fields: seq<Field>, i: nat, issue: SchemaIssue)
    requires i < |fields|
  {
    var f := fields[i];
    var id, kind := Trim(f.id, lib.u.isSpace), Lower(lib.u, Trim(f.kind, lib.u.isSpace));
    match issue
    case IdRequired => id == ""
    case IdFormat => id != "" && !PlainText(id)
    case IdDuplicate => PlainText(id) && Earlier(lib, fields, i, id)
    case LabelRequired => Trim(f.caption, lib.u.isSpace) == ""
    case TypeInvalid => kind !in {"text", "number", "url", "select", "textarea", "boolean"}
    case OptionsMissing => kind == "select" && |f.options| == 0
    case OptionBlank(k) => kind == "select" && k < |f.options| && Trim(f.options[k], lib.u.isSpace) == ""
  }

  /** An earlier field has the id. */
  predicate Earlier(lib: Library, fields: seq<Field>, n: nat, id: string)
    requires n <= |fields|
  {
    exists j :: 0 <= j < n && Trim(fields[j].id, lib.u.isSpace) == id
  }

  /** The order in which the issues of one field are reported. */
  function Rank(issue: SchemaIssue): nat {
    match issue
    case IdRequired => 0 case IdFormat => 0 case IdDuplicate => 0
    case LabelRequired => 1
    case TypeInvalid => 2 case OptionsMissing => 2
    case OptionBlank(k) => 2 + k
  }

  predicate Before(d: SchemaDetail, e: SchemaDetail) {
    d.field < e.field || (d.field == e.field && Rank(d.issue) < Rank(e.issue))
  }

  predicate Ascending(ds: seq<SchemaDetail>) {
    forall a, b :: 0 <= a < b < |ds| ==> Before(ds[a], ds[b])
  }

  lemma LettersAgree(id: string)
    ensures IsFieldId(id) <==> PlainText(id)
  {
    assert forall c :: IsIdChar(c) == IdLetter(c);
  }

  lemma AscendingAppend(a: seq<SchemaDetail>, b: seq<SchemaDetail>)
    requires Ascending(a) && Ascending(b) && forall d, e :: d in a && e in b ==> Before(d, e)
    ensures Ascending(a + b)
  {
    hide Before;
    var all := a + b;
    forall i, j | 0 <= i < j < |all|
      ensures Before(all[i], all[j])
    {
      assert i < |a| ==> all[i] in a;
      assert j >= |a| ==> all[j] in b;
    }
  }

  lemma {:induction false} BlankOptionsExactly(lib: Library, i: nat, options: seq<string>)
    ensures forall d :: d in BlankOptions(lib, i, options) <==>
      d.field == i && d.issue.OptionBlank? && d.issue.k < |options| && Trim(options[d.issue.k], lib.u.isSpace) == ""
    ensures Ascending(BlankOptions(lib, i, options))
  {
    hide Trim;
    if options != [] {
      var k := |options| - 1;
      BlankOptionsExactly(lib, i, options[..k]);
      var front := BlankOptions(lib, i, options[..k]);
      AscendingAppend(front, if lib.Trimmed(options[k]) == "" then [SchemaDetail(i, OptionBlank(k))] else []);
    }
  }

  lemma OthersExactly(lib: Library, fields: seq<Field>, i: nat)
    requires i < |fields|
    ensures forall d :: d in OtherIssues(lib, i, fields[i]) <==>
      d.field == i && OtherThanId(d.issue) && Breaks(lib, fields, i, d.issue)
    ensures Ascending(OtherIssues(lib, i, fields[i]))
  {
    hide Trim, BlankOptions, Lower;
    var f := fields[i];
    BlankOptionsExactly(lib, i, f.options);
    var caption := if lib.Trimmed(f.caption) == "" then [SchemaDetail(i, LabelRequired)] else [];
    var all := OtherIssues(lib, i, f);
    assert all == caption + all[|caption|..];
    AscendingAppend(caption, all[|caption|..]);
  }

  predicate OtherThanId(issue: SchemaIssue) {
    !issue.IdRequired? && !issue.IdFormat? && !issue.IdDuplicate?
  }

  /** The ids seen among the first `n` fields are the well-formed ones that one of them has. */
  ghost predicate SeenAre(lib: Library, fields: seq<Field>, n: nat, seen: set<string>)
    requires n <= |fields|
  {
    forall id :: id in seen <==> PlainText(id) && Earlier(lib, fields, n, id)
  }

  lemma IdsExactly(lib: Library, fields: seq<Field>, i: nat, seen: set<string>)
    requires i < |fields| && SeenAre(lib, fields, i, seen)
    ensures forall d :: d in IdIssues(lib, i, fields[i], seen) <==>
      d.field == i && !OtherThanId(d.issue) && Breaks(lib, fields, i, d.issue)
    ensures |IdIssues(lib, i, fields[i], seen)| <= 1
    ensures var id := lib.Trimmed(fields[i].id);
      SeenAre(lib, fields, i + 1, if IdIssues(lib, i, fields[i], seen) == [] then seen + {id} else seen)
  {
    hide Trim, IsFieldId, PlainText, Lower;
    var id := lib.Trimmed(fields[i].id);
    LettersAgree(id);
    assert PlainText(id) ==> id != "" by {
      NotPlain();
    }
    forall other
      ensures Earlier(lib, fields, i + 1, other) <==> Earlier(lib, fields, i, other) || other == id
    {
      if other == id {
        assert Trim(fields[i].id, lib.u.isSpace) == other;
      }
    }
  }

  lemma NotPlain()
    ensures !PlainText("")
  {
  }

  lemma FieldAscends(lib: Library, fields: seq<Field>, i: nat, seen: set<string>)
    requires i < |fields| && SeenAre(lib, fields, i, seen)
    ensures Ascending(IdIssues(lib, i, fields[i], seen) + OtherIssues(lib, i, fields[i]))
  {
    hide SeenAre, Breaks, IdIssues, OtherIssues;
    IdsExactly(lib, fields, i, seen);
    OthersExactly(lib, fields, i);
    AscendingAppend(IdIssues(lib, i, fields[i], seen), OtherIssues(lib, i, fields[i]));
  }

  lemma {:induction false} FirstDetails(lib: Library, fields: seq<Field>, n: nat)
    requires n <= |fields|
    ensures SeenAre(lib, fields, n, SchemaDetails(lib, fields, n).1)
    ensures forall d :: d in SchemaDetails(lib, fields, n).0 <==> d.field < n && Breaks(lib, fields, d.field, d.issue)
    ensures Ascending(SchemaDetails(lib, fields, n).0)
  {
    hide SeenAre, Breaks, IdIssues, OtherIssues, OtherThanId, Trim;
    if n == 0 {
      NothingSeen(lib, fields);
    } else {
      var i := n - 1;
      FirstDetails(lib, fields, i);
      var (details, seen) := SchemaDetails(lib, fields, i);
      IdsExactly(lib, fields, i, seen);
      OthersExactly(lib, fields, i);
      FieldAscends(lib, fields, i, seen);
      var more := IdIssues(lib, i, fields[i], seen) + OtherIssues(lib, i, fields[i]);
      assert SchemaDetails(lib, fields, n).0 == details + more;
      AscendingAppend(details, more);
    }
  }

  lemma NothingSeen(lib: Library, fields: seq<Field>)
    ensures SeenAre(lib, fields, 0, {})
  {
  }

  /**
   The schema checker reports exactly the issues that some field has: each once, field by field, and for
   each field its id before its label, its type and its options.
   */
  lemma SchemaDetailsExactly(lib: Library, fields: seq<Field>)
    ensures forall d :: d in SchemaDetails(lib, fields, |fields|).0 <==>
      d.field < |fields| && Breaks(lib, fields, d.field, d.issue)
    ensures Ascending(SchemaDetails(lib, fields, |fields|).0)
  {
    hide Breaks, Ascending;
    FirstDetails(lib, fields, |fields|);
  }
}
