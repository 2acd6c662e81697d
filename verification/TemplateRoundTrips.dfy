// What one call on a template undoes, repeats or keeps of another: restoring
// and publishing, saving twice, saving in turn, and writing the row directly.
module TemplateRoundTrips {
  import opened Options
  import opened JsxSources
  import Text
  import opened Templates
  import opened TemplateProofs

  // ---- Restoring and publishing -------------------------------------------

  predicate Sends(row: Row, c: Content) {
    row.name == c.name && row.subject == c.subject && row.htmlContent == c.htmlContent && row.plainText == c.plainText
  }

  /** A restored version can be published without an override: it is never
      stale, and the template then sends exactly the restored content, also
      when the restore repeated an existing version. */
  lemma RestoreThenPublish(s: State, author: Author, id: VersionId, check: Check, publishCheck: Check)
    requires Inv(s)
    requires Restore(s, author, id, check).1.Ok?
    ensures id < |s.versions|
    ensures var (t, restored) := Restore(s, author, id, check);
            var (u, sent) := Publish(t, restored.value.id, None, publishCheck);
            && (sent.Ok? || sent == Err(CheckRefused))
            && (sent.Err? ==> !publishCheck(s.row.value, s.versions[id].content))
            && (sent.Ok? ==>
                && u.row == Some(sent.value)
                && Sends(sent.value, s.versions[id].content)
                && PublishedId(u) == Some(restored.value.id)
                && ContentOf(u, PublishedId(u)) == Some(s.versions[id].content))
  {
    hide IsJsxSource, LastSeed, NewestOf;
    var (t, restored) := Restore(s, author, id, check);
    var row := s.row.value;
    var continued := ContinuedVersion(s, author, row.published);
    if !restored.value.written && continued != row.published {
      assert s.versions[continued.value].base == row.published;
    }
  }

  // ---- Saving again, and saving in turn ------------------------------------

  lemma NewestAppended(versions: seq<Version>, v: Version, sub: Option<string>)
    ensures NewestOf(versions + [v], sub) == if ByOperator(v, sub) then Some(|versions|) else NewestOf(versions, sub)
  {
    assert (versions + [v])[..|versions|] == versions;
  }

  /** What a save stores: what it was given, each source and the name it left
      out as they were in the version it continues, on the base it named and in
      the author's own name. What the template sends stays as it is. */
  lemma SavedAsGiven(s: State, author: Author, base: Option<VersionId>, c: Content, check: Check)
    requires SaveDraft(s, author, base, c, check).1.Ok?
    ensures var (t, saved) := SaveDraft(s, author, base, c, check);
            var from := ContentOf(s, ContinuedVersion(s, author, base));
            && t.row == s.row && saved.value.id < |t.versions|
            && var d := t.versions[saved.value.id].content;
              && d.subject == c.subject && d.main == c.main && d.htmlContent == c.htmlContent
                 && d.plainText == c.plainText
              && d.name == (if c.name != "" then c.name
                            else if from.Some? && from.value.name != "" then from.value.name else s.row.value.name)
              && d.jsx == (if c.jsx.Some? || from.None? then c.jsx else from.value.jsx)
              && d.visual == (if c.visual.Some? || from.None? then c.visual else from.value.visual)
              && d.html == (if c.html.Some? || from.None? then c.html else from.value.html)
              && HoldsMain(d) && (d.jsx.Some? ==> IsJsxSource(d.jsx.value))
              && (if saved.value.written
                  then saved.value.id == |s.versions|
                       && t.versions == s.versions
                          + [Version(d, Author(Operator, author.sub, author.name), None, false, false, base)]
                  else t == s && from == Some(d))
  {
    hide IsJsxSource, ContinuedVersion;
  }

  /** A direct write that succeeds sends exactly what it was given, and the
      version sent afterwards says the same; a version it adds is the writer's. */
  lemma WritesSendTheirFields(s: State, author: Author, f: Fields)
    requires Inv(s) && author.kind.Operator? && PanelWrite(s, author, f, false).1.Ok?
    ensures var (t, row) := PanelWrite(s, author, f, false);
            && t.row == Some(row.value) && row.value == Holding(row.value, f)
            && row.value.published.Some? && row.value.published.value < |t.versions|
            && var v := t.versions[row.value.published.value];
              && v.content.name == f.name && v.content.subject == f.subject
              && v.content.htmlContent == f.htmlContent && v.content.plainText == f.plainText
              && (t.versions == s.versions
                  || (t.versions == s.versions + [v] && v.author == author && v.base == PublishedId(s)))
  {
    hide IsJsxSource, JsxSource;
  }

  /** The version a save returns is the one the author's next save on the same
      base continues, and another author's next save is as before. */
  lemma NextSaveContinues(s: State, author: Author, base: Option<VersionId>, c: Content, check: Check, other: Author)
    requires SaveDraft(s, author, base, c, check).1.Ok?
    ensures var (t, saved) := SaveDraft(s, author, base, c, check);
            && ContinuedVersion(t, author, base) == Some(saved.value.id)
            && saved.value.id < |t.versions|
            && (other.sub != author.sub ==> ContinuedVersion(t, other, base) == ContinuedVersion(s, other, base))
  {
    hide IsJsxSource, SourceError, SavedContent, ContinuedVersion;
    var (t, saved) := SaveDraft(s, author, base, c, check);
    if saved.value.written {
      var v := t.versions[|s.versions|];
      ContinuedAppended(s, t, v, author, base);
      ContinuedAppended(s, t, v, other, base);
    }
  }

  lemma ContinuedAppended(s: State, t: State, v: Version, author: Author, base: Option<VersionId>)
    requires t.versions == s.versions + [v] && v.author.kind.Operator? && !v.published && !v.discarded && v.base == base
    ensures ContinuedVersion(t, author, base) == if v.author.sub == author.sub
            then Some(|s.versions|) else ContinuedVersion(s, author, base)
  {
    hide NewestOf;
    NewestAppended(s.versions, v, author.sub);
  }

  /** Repeating a save writes nothing and returns the same version. */
  lemma SavingAgainWritesNothing(s: State, author: Author, base: Option<VersionId>, c: Content, check: Check)
    requires SaveDraft(s, author, base, c, check).1.Ok?
    ensures var (t, saved) := SaveDraft(s, author, base, c, check);
            SaveDraft(t, author, base, c, check) == (t, Ok(Saved(saved.value.id, false)))
  {
    hide IsJsxSource, JsxSource, SourceError, NewestOf, ContinuedVersion;
    NextSaveContinues(s, author, base, c, check, author);
  }

  datatype SaveCall = SaveCall(author: Author, content: Content, check: Check)

  function SaveAll(s: State, base: Option<VersionId>, calls: seq<SaveCall>): (r: State) {
    if calls == [] then s
    else
      var call := calls[|calls| - 1];
      SaveDraft(SaveAll(s, base, calls[..|calls| - 1]), call.author, base, call.content, call.check).0
  }

  /** Every source the first content holds, the second holds too. */
  predicate KeepsSources(a: Option<Content>, b: Option<Content>) {
    a.Some? ==>
      && b.Some?
      && (a.value.jsx.Some? ==> b.value.jsx.Some?)
      && (a.value.visual.Some? ==> b.value.visual.Some?)
      && (a.value.html.Some? ==> b.value.html.Some?)
  }

  /** However many operators save on one base, in whatever order, no author's
      work loses a source: what their next save continues holds every source
      it held before. */
  lemma {:induction false} SavesNeverDropASource(s: State, base: Option<VersionId>, calls: seq<SaveCall>,
      author: Author)
    ensures var t := SaveAll(s, base, calls);
            KeepsSources(ContentOf(s, ContinuedVersion(s, author, base)),
                ContentOf(t, ContinuedVersion(t, author, base)))
  {
    if calls != [] {
      var before := SaveAll(s, base, calls[..|calls| - 1]);
      SavesNeverDropASource(s, base, calls[..|calls| - 1], author);
      OneSaveDropsNoSource(before, base, calls[|calls| - 1], author);
    }
  }

  lemma OneSaveDropsNoSource(s: State, base: Option<VersionId>, call: SaveCall, author: Author)
    ensures var t := SaveDraft(s, call.author, base, call.content, call.check).0;
            KeepsSources(ContentOf(s, ContinuedVersion(s, author, base)),
                ContentOf(t, ContinuedVersion(t, author, base)))
  {
    hide IsJsxSource, JsxSource, SourceError, NewestOf, ContinuedVersion, SaveDraft;
    var (t, saved) := SaveDraft(s, call.author, base, call.content, call.check);
    if saved.Ok? {
      NextSaveContinues(s, call.author, base, call.content, call.check, author);
      if author.sub == call.author.sub {
        SameSubSameContinued(s, author, call.author, base);
        SameSubSameContinued(t, author, call.author, base);
        SavedKeepsSources(s, call, base);
      } else if ContentOf(s, ContinuedVersion(s, author, base)).Some? {
        SavedAppends(s, call, base, ContinuedVersion(s, author, base));
      }
    }
  }

  /** A save keeps the sources of the version it continues. */
  lemma SavedKeepsSources(s: State, call: SaveCall, base: Option<VersionId>)
    requires SaveDraft(s, call.author, base, call.content, call.check).1.Ok?
    ensures var (t, saved) := SaveDraft(s, call.author, base, call.content, call.check);
            KeepsSources(ContentOf(s, ContinuedVersion(s, call.author, base)), ContentOf(t, Some(saved.value.id)))
  {
    hide IsJsxSource, JsxSource, SourceError, NewestOf, ContinuedVersion;
  }

  lemma SavedAppends(s: State, call: SaveCall, base: Option<VersionId>, id: Option<VersionId>)
    requires ContentOf(s, id).Some?
    ensures ContentOf(SaveDraft(s, call.author, base, call.content, call.check).0, id) == ContentOf(s, id)
  {
    hide IsJsxSource, JsxSource, SourceError, NewestOf, ContinuedVersion, SavedContent;
  }

  lemma SameSubSameContinued(s: State, a: Author, b: Author, base: Option<VersionId>)
    ensures a.sub == b.sub ==> ContinuedVersion(s, a, base) == ContinuedVersion(s, b, base)
  {
  }

  // ---- Writing the row directly --------------------------------------------

  /** Exactly when a row write records nothing: what the row then sends is what
      the published version sends, and its JSX source is that version's — or it
      holds none, and the version's Main source is the HTML it sends. */
  lemma RecordsNothingExactly(row: Row, p: Content)
    requires SourceError(p) == None
    ensures Candidate(row, Some(p)) == p <==>
              Sends(row, p) && (JsxSource(row.react) == p.jsx
                                || (JsxSource(row.react) == None && p.main.Html? && p.html == Some(p.htmlContent)))
  {
    hide IsJsxSource;
  }

  function FieldsOf(row: Row): (r: Fields) {
    Fields(row.name, row.subject, row.htmlContent, row.plainText, row.react)
  }

  /** A write that changes nothing a version holds: the other fields are the
      version's, and react_email_content holds no JSX source but its. */
  predicate ChangesNothing(f: Fields, p: Content) {
    && f.name == p.name && f.subject == p.subject && f.htmlContent == p.htmlContent && f.plainText == p.plainText
    && (JsxSource(f.react) == p.jsx || JsxSource(f.react) == None)
  }

  /** It drops the version's JSX source from the row, and its HTML was not the
      Main source as it is. */
  predicate LosesItsSource(react: string, p: Content) {
    JsxSource(react) == None && p.jsx.Some? && !(p.main.Html? && p.html == Some(p.htmlContent))
  }

  /** The version such a write records all the same. */
  function TakenAsHtml(p: Content): (r: Content) {
    p.(main := Html, html := Some(p.htmlContent))
  }

  /** A direct write that changes nothing a version holds records a version all
      the same exactly when it leaves out the JSX source the version sent
      keeps; the Main source is then its HTML. Otherwise it records nothing. */
  lemma WritingTheSameRecordsExactly(s: State, author: Author, f: Fields)
    requires Inv(s) && Lock(s).Some? && PublishedId(s).Some? && author.kind.Operator?
    requires ChangesNothing(f, s.versions[PublishedId(s).value].content)
    ensures var p := s.versions[PublishedId(s).value].content;
            var after := PanelWrite(s, author, f, false).0;
            if LosesItsSource(f.react, p) then
              after.versions == s.versions + [Version(TakenAsHtml(p), author, None, true, false, PublishedId(s))]
              && PublishedId(after) == Some(|s.versions|)
            else after.versions == s.versions && PublishedId(after) == PublishedId(s)
  {
    hide IsJsxSource, LastSeed, JsxSource;
    var p := s.versions[PublishedId(s).value];
    assert p in s.versions && VersionHolds(p);
    RecordsNothingExactly(PanelRow(s, f).value, p.content);
  }

  /** The same of a seed: it then meets a conflict, if there is one. */
  lemma SeedingTheSameRecordsExactly(s: State, seed: Seed)
    requires Inv(s) && PublishedId(s).Some?
    requires ChangesNothing(seed.fields, s.versions[PublishedId(s).value].content)
    ensures WouldRecord(s, seed) <==> LosesItsSource(seed.fields.react, s.versions[PublishedId(s).value].content)
  {
    hide IsJsxSource, LastSeed, JsxSource;
    var p := s.versions[PublishedId(s).value];
    assert p in s.versions && VersionHolds(p);
    RecordsNothingExactly(UpsertedRow(s, seed.fields), p.content);
  }

  /** What a row holds beside the version it sends: nothing where JSX would be,
      the version's own JSX source, or none because its HTML is the source. */
  predicate HoldsItsSource(s: State) {
    s.row.Some? && PublishedId(s).Some? && PublishedId(s).value < |s.versions| ==>
      var p := s.versions[PublishedId(s).value].content;
      s.row.value.react == "" || JsxSource(s.row.value.react) == p.jsx
          || (p.main.Html? && p.html == Some(p.htmlContent))
  }

  lemma RecordedRowHoldsItsSource(row: Row, versions: seq<Version>, author: Author, requested: Option<string>)
    requires row.published.Some? ==> row.published.value < |versions|
    ensures HoldsItsSource(RecordRow(row, versions, author, requested).0)
  {
    hide IsJsxSource, JsxSource;
  }

  lemma StepHoldsItsSource(s: State, op: Op)
    requires Inv(s) && HoldsItsSource(s) && IsCall(op)
    ensures HoldsItsSource(Step(s, op))
  {
    hide IsJsxSource, LastSeed, RecordRow, Rules, OperatorVersions, SavedContent, ContinuedVersion, Candidate,
      Agrees, SourceError;
    match op
    case OpPanel(author, fields, fails) =>
      if PanelRow(s, fields).Some? {
        RecordedRowHoldsItsSource(PanelRow(s, fields).value, s.versions, author, None);
      }
    case OpSeed(seed) =>
      RecordedRowHoldsItsSource(UpsertedRow(s, seed.fields), s.versions, seed.author, Some(seed.fields.subject));
    case OpPublish(id, _, _) =>
      if id < |s.versions| {
        assert s.versions[id] in s.versions && VersionHolds(s.versions[id]);
        PublishedHoldsItsSource(s, op.id, op.over, op.check);
      }
    case _ =>
  }

  lemma PublishedHoldsItsSource(s: State, id: VersionId, over: Option<VersionId>, check: Check)
    requires Inv(s) && HoldsItsSource(s) && id < |s.versions| && SourceError(s.versions[id].content) == None
    ensures HoldsItsSource(Publish(s, id, over, check).0)
  {
    hide IsJsxSource, LastSeed, Inv;
  }

  lemma {:induction false} RunHoldsItsSource(s: State, ops: seq<Op>)
    requires Initial(s) && IsRun(ops)
    ensures HoldsItsSource(Run(s, ops))
  {
    hide HoldsItsSource, Step;
    if ops != [] {
      RunHoldsItsSource(s, ops[..|ops| - 1]);
      RunKeeps(s, ops[..|ops| - 1]);
      StepHoldsItsSource(Run(s, ops[..|ops| - 1]), ops[|ops| - 1]);
    } else {
      assert HoldsItsSource(s) by {
        NothingSentHolds(s);
      }
    }
  }

  lemma NothingSentHolds(s: State)
    requires PublishedId(s).None?
    ensures HoldsItsSource(s)
  {
  }

  /** In every run, sending the row back just as it is records a version exactly
      when its react_email_content is empty and the version sent keeps a JSX
      source beside another Main source; no route takes an empty one. */
  lemma ResendingTheRowRecordsExactly(s: State, ops: seq<Op>, author: Author)
    requires Initial(s) && IsRun(ops) && author.kind.Operator?
    requires Lock(Run(s, ops)).Some? && PublishedId(Run(s, ops)).Some?
    ensures var t := Run(s, ops);
            var p := ContentOf(t, PublishedId(t));
            && p.Some?
            && (PanelWrite(t, author, FieldsOf(t.row.value), false).0.versions != t.versions
                <==> t.row.value.react == "" && p.value.jsx.Some?
                     && !(p.value.main.Html? && p.value.html == Some(p.value.htmlContent)))
  {
    hide Run, IsJsxSource, JsxSource, LastSeed, PanelWrite;
    var t := Run(s, ops);
    RunKeeps(s, ops);
    RunHoldsItsSource(s, ops);
    WritingTheSameRecordsExactly(t, author, FieldsOf(t.row.value));
  }

  /** What every route that writes the row asks of its fields. */
  predicate IsReceivable(f: Fields) {
    f.name != "" && f.subject != "" && f.htmlContent != "" && f.plainText != "" && f.react != ""
  }

  const OPERATOR := Author(Operator, Some("a"), None)
  const ANY: Check := (row, c) => true
  const FIRST := Content("n", "s", None, None, Some("h0"), Html, "h0", "p0")
  const BESIDE := Content("n", "s", Some("x"), Some("{}"), None, Visual, "h", "p")
  const DRAFT := BESIDE.(html := Some("h0"))
  const FIRSTS := [Version(FIRST, OPERATOR, None, true, false, None)]
  const COMMENT := "// x"
  const WRITTEN := Fields("n", "s", "h0", "p0", COMMENT)
  const DRAFTED := State(Some(Row("n", "s", "h0", "p0", COMMENT, Some(0), false, None)),
                         FIRSTS + [Version(DRAFT, OPERATOR, None, false, false, Some(0))])

  lemma CommentIsNoSource()
    ensures JsxSource(COMMENT) == None && IsJsxSource("x")
  {
    assert "//" + " x" == COMMENT;
    LineCommentIsSkipped(" x", "");
    assert !Text.IsBlank(WithoutComments("x")[0]);
  }

  lemma DraftBeside()
    ensures var s := PanelWrite(State(None, []), OPERATOR, WRITTEN, false).0;
            SaveDraft(s, OPERATOR, Some(0), BESIDE, ANY).0 == DRAFTED
  {
    hide IsJsxSource;
    CommentIsNoSource();
    var s := PanelWrite(State(None, []), OPERATOR, WRITTEN, false).0;
    assert s.versions == FIRSTS;
    assert NewestOf(s.versions, OPERATOR.sub) == Some(0);
    assert SavedContent(s, s.row.value, Some(0), BESIDE) == DRAFT;
  }

  lemma PublishedBeside()
    ensures var s := Publish(DRAFTED, 1, None, ANY).0;
            s.row.Some? && PublishedId(s) == Some(1) && |s.versions| == 2 && s.versions[1].content == DRAFT
            && Lock(s).Some? && s.row.value.react == ""
  {
    assert DRAFTED.versions[1] == Version(DRAFT, OPERATOR, None, false, false, Some(0));
  }

  const BESIDE_RUN := [OpPanel(OPERATOR, WRITTEN, false),
                       OpSave(OPERATOR, Some(0), BESIDE, ANY),
                       OpPublish(1, None, ANY)]
  const SAME := Fields("n", "s", "h", "p", COMMENT)

  /** A history of writes the routes take in which it does: a Visual draft with
      a JSX source beside it is published over a template the panel wrote with
      a comment for JSX; the same fields and the same comment, written again
      over what is sent now, record a version. */
  lemma WritingTheSameCanRecord()
    ensures Initial(State(None, [])) && IsRun(BESIDE_RUN) && IsReceivable(WRITTEN) && IsReceivable(SAME)
    ensures var s := Run(State(None, []), BESIDE_RUN);
            && Lock(s).Some? && PublishedId(s) == Some(1) && |s.versions| == 2
            && ChangesNothing(SAME, s.versions[1].content)
            && |PanelWrite(s, OPERATOR, SAME, false).0.versions| == 3
  {
    hide PanelWrite, SaveDraft, Publish, Inv, IsJsxSource, JsxSource;
    var s0, ops := State(None, []), BESIDE_RUN;
    assert ops[..2][..1][..0] == [] && ops[..2][0] == ops[0];
    assert Run(s0, ops[..2][..1]) == Step(s0, ops[0]);
    assert Run(s0, ops[..2]) == Step(Step(s0, ops[0]), ops[1]);
    DraftBeside();
    PublishedBeside();
    CommentIsNoSource();
    RunKeeps(s0, ops);
    WritingTheSameRecordsExactly(Run(s0, ops), OPERATOR, SAME);
  }
}
