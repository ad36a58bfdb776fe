/**
 Runs of the application service in which it falls short: an orphaned resume, and a reason that was
 taken back without an announcement.
 */
module AppExamples {
  import opened Text
  import opened Wrappers
  import opened CustomForm
  import opened AppModel
  import opened AppConsistency
  import Filename
  import Resume
  import Job

  const POSTING := Job.Posting("x", "x", "x", "x", Job.FullTime, None, None, None, "USD", "x", [])

  /** One published job without questions. */
  const JOBS := map["j" := Job.Job("j", POSTING, Job.Published, Some(0))]

  /** A file of four bytes, the signature of a PDF. */
  const RESUME := Submission("j", true, map[], "a.pdf", 4, Some(Stream([0x25, 0x50, 0x44, 0x46], false)))

  lemma PdfName(u: Unicode)
    requires u.Laws()
    ensures Filename.Ext("a.pdf") == ".pdf" && Filename.Stem("a.pdf") == "a"
    ensures Lower(u, ".pdf") == ".pdf" && Filename.Accepted(u, "a.pdf")
  {
    hide Filename.Ext, Lower;
    assert "a.pdf" == "a" + ".pdf";
    Filename.ExtOf("a", ".pdf");
    LowerFixed(u, ".pdf");
    Filename.PdfAllowed(u);
  }

  lemma PdfSanitized(u: Unicode)
    requires u.Laws()
    ensures Filename.Sanitized(u, "a.pdf") == "a.pdf"
  {
    hide Filename.Sanitized, Filename.Accepted, Filename.Ext, Filename.Stem, Lower;
    PdfName(u);
    var x := "a.pdf";
    assert forall i :: 0 <= i < 5 ==> Filename.IsSafe(x[i]) && x[i] != '_';
    assert Filename.SafeName(x);
    Filename.SanitizedAgain(u, x);
    assert "a" + ".pdf" == x;
  }

  lemma Admitted(lib: Library, o: Office)
    requires lib.Laws() && o.jobs == JOBS
    ensures Admit(lib, o, RESUME) == Ok("a.pdf")
  {
    hide Filename.Sanitized, Filename.Ext, Lower, Trim;
    PdfSanitized(lib.u);
    PdfName(lib.u);
    assert Resume.Magic(Resume.PDF) <= RESUME.stream.value.content;
  }

  lemma PlainIds(u: Unicode)
    requires u.Laws()
    ensures Filename.PlainId(u, "j") && Filename.PlainId(u, "a")
  {
    hide Trim;
    TrimOne(u, 'j');
    TrimOne(u, 'a');
  }

  lemma Opened(lib: Library)
    requires lib.Laws()
    ensures Runnable(lib, INITIAL, [ChangeJobs(JOBS)])
    ensures Run(lib, INITIAL, [ChangeJobs(JOBS)]) == INITIAL.(jobs := JOBS)
  {
    hide Filename.PlainId, Run, Runnable, DoApply, DoUpdateStage;
    PlainIds(lib.u);
    RunNone(lib, INITIAL);
    RunMore(lib, INITIAL, [], ChangeJobs(JOBS));
    assert [] + [ChangeJobs(JOBS)] == [ChangeJobs(JOBS)];
    assert Next(lib, INITIAL, ChangeJobs(JOBS)) == INITIAL.(jobs := JOBS);
  }

  lemma RunNone(lib: Library, o: Office)
    ensures Runnable(lib, o, []) && Run(lib, o, []) == o
  {
  }

  lemma Applied(lib: Library, creates: bool)
    requires lib.Laws()
    ensures var calls := [ChangeJobs(JOBS), Apply(RESUME, "a", true, creates, false)];
      && Runnable(lib, INITIAL, calls)
      && var o := Run(lib, INITIAL, calls);
        && o.objects != map[]
        && o.apps.Keys == (if creates then {"a"} else {})
        && (creates ==> o.apps["a"].id == "a" && o.apps["a"].stage == Stage.Applied)
        && o.updates == []
  {
    hide Filename.ResumeKey, Filename.PlainId, Admit, Run, Runnable;
    var c, o1 := Apply(RESUME, "a", true, creates, false), INITIAL.(jobs := JOBS);
    Opened(lib);
    PlainIds(lib.u);
    Admitted(lib, o1);
    RunMore(lib, INITIAL, [ChangeJobs(JOBS)], c);
    assert [ChangeJobs(JOBS)] + [c] == [ChangeJobs(JOBS), c];
    var key := NewApplication(lib, RESUME, "a", "a.pdf").resumeKey;
    assert key in Next(lib, o1, c).objects;
  }

  /** No application is stored, and yet a resume is: its row was refused and so was its deletion. */
  lemma OrphanedResume(lib: Library)
    requires lib.Laws()
    ensures var calls := [ChangeJobs(JOBS), Apply(RESUME, "a", true, false, false)];
      && Runnable(lib, INITIAL, calls)
      && Run(lib, INITIAL, calls).apps == map[] && Run(lib, INITIAL, calls).objects != map[]
  {
    hide Run, Runnable;
    Applied(lib, false);
  }

  lemma RejectedTwice(lib: Library, o: Office)
    requires "a" in o.apps && o.apps["a"].stage == Stage.Applied && o.updates == []
    requires StageInputOk(lib, Rejected, Some("x")) && StageInputOk(lib, Rejected, None)
    ensures var o1 := Next(lib, o, UpdateStage("a", Rejected, Some("x"), true, true));
      var o2 := Next(lib, o1, UpdateStage("a", Rejected, None, true, true));
      && "a" in o2.apps && o2.apps["a"].stage == Rejected && o2.apps["a"].reason == None
      && o2.updates == [Update("a", Rejected, Some("x")), Update("a", Rejected, None)]
  {
    hide StageEvents, StageInputOk, DoApply;
  }

  lemma ShortReason(lib: Library)
    requires lib.Laws()
    ensures StageInputOk(lib, Rejected, Some("x")) && StageInputOk(lib, Rejected, None)
  {
    hide Trim;
    TrimOne(lib.u, 'x');
    assert "x"[1..] == [] && ByteLength([]) == 0;
  }

  lemma TwoReasons()
    ensures ReasonsGiven([Update("a", Rejected, Some("x")), Update("a", Rejected, None)], "a") == [Some("x"), None]
    ensures LastGiven([Some("x"), None]) == Some("x")
  {
    UpdatesAppend([], Update("a", Rejected, Some("x")), "a");
    UpdatesAppend([Update("a", Rejected, Some("x"))], Update("a", Rejected, None), "a");
    assert [] + [Update("a", Rejected, Some("x"))] == [Update("a", Rejected, Some("x"))];
    assert [Update("a", Rejected, Some("x"))] + [Update("a", Rejected, None)]
        == [Update("a", Rejected, Some("x")), Update("a", Rejected, None)];
    assert [Some("x"), None][..1] == [Some("x")];
  }

  lemma StageUpdatesEnabled(lib: Library)
    ensures forall o, c: Call :: c.UpdateStage? ==> Enabled(lib, o, c)
  {
  }

  /** The application is stored as rejected for no reason, and was last announced as rejected for "x". */
  lemma WithdrawnReason(lib: Library)
    requires lib.Laws()
    ensures var calls := [ChangeJobs(JOBS), Apply(RESUME, "a", true, true, false),
                          UpdateStage("a", Rejected, Some("x"), true, true),
                          UpdateStage("a", Rejected, None, true, true)];
      && Runnable(lib, INITIAL, calls)
      && var o := Run(lib, INITIAL, calls);
        && "a" in o.apps && o.apps["a"].stage == Rejected && o.apps["a"].reason == None
        && LastRejection(o.events, "a") == Some(Some("x"))
  {
    hide Run, Runnable, Next, Enabled, LastRejection, ReasonsGiven, LastGiven, StageInputOk;
    StageUpdatesEnabled(lib);
    var applied := [ChangeJobs(JOBS), Apply(RESUME, "a", true, true, false)];
    var first := UpdateStage("a", Rejected, Some("x"), true, true);
    var second := UpdateStage("a", Rejected, None, true, true);
    Applied(lib, true);
    ShortReason(lib);
    RejectedTwice(lib, Run(lib, INITIAL, applied));
    RunMore(lib, INITIAL, applied, first);
    RunMore(lib, INITIAL, applied + [first], second);
    TwoReasons();
    ReasonAnnouncedExactly(lib, applied + [first] + [second], "a");
    assert applied + [first] + [second] == [applied[0], applied[1], first, second];
  }
}
