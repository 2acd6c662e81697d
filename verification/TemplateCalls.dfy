// What each template call answers and leaves, told from the row's and the
// versions' own fields: when it succeeds, and why it is refused.
module TemplateCalls {
  import opened Options
  import opened Text
  import opened JsxSources
  import opened Templates
  import Erasure

  predicate IsOpen(s: State) {
    s.row.Some? && !s.row.value.archived
  }

  // ---- Publishing ----------------------------------------------------------

  /** The template sends what the draft started from, or what the operator was
      shown and chose to replace. */
  predicate IsTheOneSent(row: Row, base: Option<VersionId>, over: Option<VersionId>) {
    base == row.published || (over.Some? && row.published == over)
  }

  /** Why a version of an open template is not published. */
  function WhyNotPublished(row: Row, id: VersionId, v: Version, over: Option<VersionId>, check: Check)
    : (e: Option<Error>)
  {
    if v.published then (if row.published == Some(id) then None else Some(NotADraft))
    else if v.discarded then Some(DraftDiscarded)
    else if !IsTheOneSent(row, v.base, over) then Some(StaleBase(id, v.base, row.published))
    else if !check(row, v.content) then Some(CheckRefused)
    else None
  }

  /** A draft of an open template that was not discarded is published exactly
      when the template sends what it started from or what the operator named,
      and the check takes it: the row then holds its fields, and it is marked
      published. The version sent already is published again as a repeat that
      changes nothing, and any other published version is no draft. Each refusal
      says why, and changes nothing. */
  lemma PublishExactly(s: State, id: VersionId, over: Option<VersionId>, check: Check)
    ensures var (after, r) := Publish(s, id, over, check);
            && (r.Err? ==> after == s)
            && (r == Err(NotFound) <==> !IsOpen(s) || id >= |s.versions|)
            && (IsOpen(s) && id < |s.versions| ==>
                  var row, v := s.row.value, s.versions[id];
                  match WhyNotPublished(row, id, v, over, check)
                  case Some(error) => r == Err(error)
                  case None =>
                    && r.Ok? && after.row == Some(r.value)
                    && if v.published then after == s
                       else
                         && r.value == Row(v.content.name, v.content.subject, v.content.htmlContent,
                                           v.content.plainText, SentCode(v.content), Some(id), false, row.refusal)
                         && after.versions
                            == s.versions[id := Version(v.content, v.author, v.requested, true, false, v.base)])
  {
  }

  /** What react_email_content holds of a version sent: its JSX source when that
      is its Main source. */
  function SentCode(c: Content): (r: string) {
    if c.main == Jsx && c.jsx.Some? then c.jsx.value else ""
  }

  // ---- Drafts --------------------------------------------------------------

  /** An author's newest version among the operators', when it is a draft no one
      discarded. */
  predicate IsTheirDraft(versions: seq<Version>, sub: Option<string>, id: VersionId) {
    && id < |versions|
    && versions[id].author.kind == Operator && versions[id].author.sub == sub
    && !versions[id].published && !versions[id].discarded
    && forall i | id < i < |versions| :: !(versions[i].author.kind == Operator && versions[i].author.sub == sub)
  }

  /** The version a draft on a base continues: the author's draft, when it
      started there too, and else the base. */
  predicate Continues(s: State, sub: Option<string>, base: Option<VersionId>, from: Option<VersionId>) {
    || (from.Some? && IsTheirDraft(s.versions, sub, from.value) && s.versions[from.value].base == base)
    || (from == base
        && forall id: VersionId | id < |s.versions| && IsTheirDraft(s.versions, sub, id) :: s.versions[id].base != base)
  }

  lemma NewestIs(versions: seq<Version>, sub: Option<string>, id: VersionId)
    ensures IsTheirDraft(versions, sub, id) <==> DraftInProgress(versions, sub) == Some(id)
  {
  }

  lemma ContinuedExactly(s: State, author: Author, base: Option<VersionId>, from: Option<VersionId>)
    ensures Continues(s, author.sub, base, from) <==> ContinuedVersion(s, author, base) == from
  {
    hide DraftInProgress, IsTheirDraft;
    forall id: VersionId
      ensures IsTheirDraft(s.versions, author.sub, id) <==> DraftInProgress(s.versions, author.sub) == Some(id)
    {
      NewestIs(s.versions, author.sub, id);
    }
    if DraftInProgress(s.versions, author.sub).Some? {
      var id := DraftInProgress(s.versions, author.sub).value;
      assert IsTheirDraft(s.versions, author.sub, id) && id < |s.versions| by {
        IsAVersion(s.versions, author.sub, id);
      }
    }
  }

  lemma IsAVersion(versions: seq<Version>, sub: Option<string>, id: VersionId)
    ensures DraftInProgress(versions, sub) == Some(id) ==> id < |versions|
  {
  }

  predicate HasItsSource(c: Content) {
    (c.main == Jsx ==> c.jsx.Some?) && (c.main == Visual ==> c.visual.Some?) && (c.main == Html ==> c.html.Some?)
  }

  /** Why content is not written as a draft. */
  function WhyNotWritten(row: Row, c: Content, check: Check): (e: Option<Error>) {
    if !HasItsSource(c) then Some(MainSourceMissing(c.main))
    else if c.jsx.Some? && !IsJsxSource(c.jsx.value) then Some(NotJsxSource)
    else if !check(row, c) then Some(CheckRefused)
    else None
  }

  /** A draft written: the version it continues, when it holds just this already,
      or a new one of this operator. */
  predicate IsWritten(s: State, after: State, saved: Saved, author: Author, base: Option<VersionId>,
                      from: Option<VersionId>, c: Content) {
    if from.Some? && from.value < |s.versions| && s.versions[from.value].content == c then
      after == s && saved == Saved(from.value, false)
    else
      && saved == Saved(|s.versions|, true) && after.row == s.row
      && after.versions
         == s.versions + [Version(c, Author(Operator, author.sub, author.name), None, false, false, base)]
  }

  lemma WriteExactly(s: State, row: Row, author: Author, base: Option<VersionId>, from: Option<VersionId>, c: Content,
                     check: Check)
    ensures var (after, r) := WriteDraft(s, row, author, base, from, c, check);
            match WhyNotWritten(row, c, check)
            case Some(error) => r == Err(error) && after == s
            case None => r.Ok? && IsWritten(s, after, r.value, author, base, from, c)
  {
    hide IsJsxSource;
  }

  /** A base is a published version, or none where the template sends none. */
  predicate CanStartFrom(s: State, row: Row, base: Option<VersionId>) {
    || (base.None? && row.published.None?)
    || (base.Some? && base.value < |s.versions| && s.versions[base.value].published)
  }

  function Or<T>(given: Option<T>, kept: Option<T>): (r: Option<T>) {
    if given.Some? then given else kept
  }

  /** What a save stores: the sources and the name it leaves out are those of the
      version it continues, or the template's name. */
  function Stored(row: Row, c: Content, from: Option<Content>): (r: Content) {
    Content(
      if c.name != "" then c.name else if from.Some? && from.value.name != "" then from.value.name else row.name,
      c.subject,
      Or(c.jsx, if from.Some? then from.value.jsx else None),
      Or(c.visual, if from.Some? then from.value.visual else None),
      Or(c.html, if from.Some? then from.value.html else None),
      c.main, c.htmlContent, c.plainText)
  }

  function Held(s: State, id: Option<VersionId>): (c: Option<Content>) {
    if id.Some? && id.value < |s.versions| then Some(s.versions[id.value].content) else None
  }

  /** A save is found no template when there is none open; has no base when the
      one given was never published; is refused for its sources or by the check;
      and else is written, with what it left out kept. What is not written
      changes nothing. */
  lemma SaveExactly(s: State, author: Author, base: Option<VersionId>, c: Content, check: Check,
                    from: Option<VersionId>)
    requires Continues(s, author.sub, base, from)
    ensures var (after, r) := SaveDraft(s, author, base, c, check);
            && (r.Err? ==> after == s)
            && (!IsOpen(s) ==> r == Err(NotFound))
            && (IsOpen(s) && !CanStartFrom(s, s.row.value, base) ==> r == Err(InvalidBase))
            && (IsOpen(s) && CanStartFrom(s, s.row.value, base) ==>
                  var stored := Stored(s.row.value, c, Held(s, from));
                  match WhyNotWritten(s.row.value, stored, check)
                  case Some(error) => r == Err(error)
                  case None => r.Ok? && IsWritten(s, after, r.value, author, base, from, stored))
  {
    hide IsJsxSource, WriteDraft, ContinuedVersion, Continues, WhyNotWritten, IsWritten;
    ContinuedExactly(s, author, base, from);
    if IsOpen(s) {
      WriteExactly(s, s.row.value, author, base, from, Stored(s.row.value, c, Held(s, from)), check);
    }
  }

  /** A restore is of any version of an open template, its whole content, as a
      draft on what the template sends; and is refused as a save is. */
  lemma RestoreExactly(s: State, author: Author, id: VersionId, check: Check, from: Option<VersionId>)
    requires s.row.Some? ==> Continues(s, author.sub, s.row.value.published, from)
    ensures var (after, r) := Restore(s, author, id, check);
            && (r.Err? ==> after == s)
            && (!IsOpen(s) || id >= |s.versions| ==> r == Err(NotFound))
            && (IsOpen(s) && id < |s.versions| ==>
                  var row, c := s.row.value, s.versions[id].content;
                  if !CanStartFrom(s, row, row.published) then r == Err(InvalidBase)
                  else
                    match WhyNotWritten(row, c, check)
                    case Some(error) => r == Err(error)
                    case None => r.Ok? && IsWritten(s, after, r.value, author, row.published, from, c))
  {
    hide IsJsxSource, WriteDraft, ContinuedVersion, Continues, WhyNotWritten, IsWritten;
    if IsOpen(s) && id < |s.versions| {
      ContinuedExactly(s, author, s.row.value.published, from);
      WriteExactly(s, s.row.value, author, s.row.value.published, from, s.versions[id].content, check);
    }
  }

  /** Discarding marks a version that was never published, and nothing else. */
  lemma DiscardExactly(s: State, id: VersionId)
    ensures var (after, r) := Discard(s, id);
            if !IsOpen(s) || id >= |s.versions| then r == Err(NotFound) && after == s
            else
              var v := s.versions[id];
              if v.published then r == Err(NotADraft) && after == s
              else
                && r == Ok(Version(v.content, v.author, v.requested, false, true, v.base))
                && after == State(s.row, s.versions[id := r.value])
  {
  }

  // ---- Direct writes -------------------------------------------------------

  /** The content a direct write records: the row's fields; its JSX source, or
      that of the version sent where the row's code is none; the visual source
      of the version sent. The HTML source and the Main source are those of the
      version sent when only the name or the subject is another's; else JSX
      where the row has one, and the row's HTML where it has none. */
  lemma CandidateExactly(row: Row, p: Option<Content>)
    ensures var c := Candidate(row, p);
            && c.name == row.name && c.subject == row.subject
            && c.htmlContent == row.htmlContent && c.plainText == row.plainText
            && c.jsx == (if IsJsxSource(row.react) then Some(row.react) else if p.Some? then p.value.jsx else None)
            && c.visual == (if p.Some? then p.value.visual else None)
            && (SendsTheBodyOf(row, p) ==> c.html == p.value.html && c.main == p.value.main)
            && (!SendsTheBodyOf(row, p) && IsJsxSource(row.react) ==>
                  c.main == Jsx && c.html == if p.Some? then p.value.html else None)
            && (!SendsTheBodyOf(row, p) && !IsJsxSource(row.react) ==>
                  c.main == Html && c.html == Some(row.htmlContent))
  {
    hide IsJsxSource;
  }

  /** The row's render is the sent version's, and its code that version's JSX
      source, or none where that has none. */
  predicate SendsTheBodyOf(row: Row, p: Option<Content>) {
    && p.Some? && row.htmlContent == p.value.htmlContent && row.plainText == p.value.plainText
    && (if IsJsxSource(row.react) then p.value.jsx == Some(row.react) else p.value.jsx.None?)
  }

  /** A row written as it is: the version it is recorded as, unless the version
      sent holds just that. */
  predicate IsRecorded(row: Row, versions: seq<Version>, author: Author, requested: Option<string>, after: State) {
    var p := Held(State(Some(row), versions), row.published);
    var c := Candidate(row, p);
    if p == Some(c) then after == State(Some(row), versions)
    else
      && after.row == Some(Row(row.name, row.subject, row.htmlContent, row.plainText, row.react, Some(|versions|),
                               row.archived, row.refusal))
      && after.versions == versions + [Version(c, author, requested, true, false, row.published)]
  }

  lemma RecordExactly(row: Row, versions: seq<Version>, author: Author, requested: Option<string>)
    ensures var (after, recorded) := RecordRow(row, versions, author, requested);
            IsRecorded(row, versions, author, requested, after) && (recorded <==> |after.versions| > |versions|)
  {
    hide Candidate;
  }

  /** The row a direct write leaves before it is recorded: the fields it sends,
      and of a row that was there what is sent and what was refused. */
  function RowWith(f: Fields, published: Option<VersionId>, refusal: Option<Refusal>): (r: Row) {
    Row(f.name, f.subject, f.htmlContent, f.plainText, f.react, published, false, refusal)
  }

  /** The panel writes a row that is not archived, or a first one: what it sends
      and nothing else, recorded as a version of the operator's. */
  lemma PanelExactly(s: State, author: Author, f: Fields, fails: bool)
    ensures var (after, r) := PanelWrite(s, author, f, fails);
            if s.row.Some? && s.row.value.archived then r == Err(NotFound) && after == s
            else if fails then r == Err(WriteFailed) && after == s
            else
              var row := RowWith(f, if s.row.Some? then s.row.value.published else None,
                                 if s.row.Some? then s.row.value.refusal else None);
              IsRecorded(row, s.versions, author, None, after) && r.Ok? && after.row == Some(r.value)
  {
    hide Candidate, RecordRow, IsRecorded;
    var published := if s.row.Some? then s.row.value.published else None;
    var refusal := if s.row.Some? then s.row.value.refusal else None;
    RecordExactly(RowWith(f, published, refusal), s.versions, author, None);
    RecordedRowIsThere(RowWith(f, published, refusal), s.versions, author, None);
  }

  lemma RecordedRowIsThere(row: Row, versions: seq<Version>, author: Author, requested: Option<string>)
    ensures RecordRow(row, versions, author, requested).0.row.Some?
  {
    hide Candidate;
  }

  // ---- Seeds ---------------------------------------------------------------

  /** A seed's row: the fields it sends on the row that is there, archived or
      not, or on a first one; no refusal is kept. */
  function SeededRow(s: State, f: Fields): (r: Row) {
    RowWith(f, if s.row.Some? then s.row.value.published else None, None)
  }

  /** Without a conflict, or forced, a seed writes its fields and they are
      recorded as its version with the subject it asked for; the conflict it
      overrode is told when it recorded one. Refused, it leaves the row and the
      versions and keeps why; failed, it leaves everything. */
  lemma SeedExactly(s: State, seed: Seed)
    ensures var (after, r) := SeedTemplate(s, seed);
            var conflict := if s.row.Some? then SeedConflict(s, s.row.value, seed.fields.subject) else None;
            var written := RecordRow(SeededRow(s, seed.fields), s.versions, seed.author, Some(seed.fields.subject)).0;
            && IsRecorded(SeededRow(s, seed.fields), s.versions, seed.author, Some(seed.fields.subject), written)
            && (seed.fails ==> r == SeedFailed(WriteFailed) && after == s)
            && (!seed.fails && conflict.Some? && !seed.force && |written.versions| > |s.versions| ==>
                  && r == SeedRefused(conflict.value) && after.versions == s.versions
                  && s.row.Some?
                  && var row := s.row.value;
                  after.row == Some(Row(
                    row.name, row.subject, row.htmlContent, row.plainText, row.react, row.published, row.archived,
                    Some(Refusal(if row.refusal.Some? && row.refusal.value.payload == seed.payload
                                 then row.refusal.value.since else seed.at,
                                 conflict.value.rules, seed.payload)))))
            && (!seed.fails && (conflict.None? || seed.force || |written.versions| == |s.versions|) ==>
                  && after == written && r.Seeded? && after.row == Some(r.row)
                  && (r.overrode.Some? <==> conflict.Some? && |written.versions| > |s.versions|)
                  && (r.overrode.Some? ==> r.overrode.value.rules == conflict.value.rules))
  {
    hide Candidate, RecordRow, IsRecorded, SeedConflict, OperatorVersions;
    var row := SeededRow(s, seed.fields);
    assert UpsertedRow(s, seed.fields) == row;
    RecordExactly(row, s.versions, seed.author, Some(seed.fields.subject));
    RecordedRowIsThere(row, s.versions, seed.author, Some(seed.fields.subject));
    RecordsOneOrNone(row, s.versions, seed.author, Some(seed.fields.subject));
  }

  lemma RecordsOneOrNone(row: Row, versions: seq<Version>, author: Author, requested: Option<string>)
    ensures |RecordRow(row, versions, author, requested).0.versions| >= |versions|
  {
    hide Candidate;
  }

  /** A first seed makes a row with exactly its fields, open and with no refusal,
      that sends the version just recorded. */
  lemma FirstSeedExactly(s: State, seed: Seed)
    requires s.row.None? && !seed.fails
    ensures var (after, r) := SeedTemplate(s, seed);
            var f := seed.fields;
            && after.row == Some(Row(f.name, f.subject, f.htmlContent, f.plainText, f.react, Some(|s.versions|), false,
                                     None))
            && r == Seeded(after.row.value, None)
            && after.versions == s.versions + [Version(
                 Content(f.name, f.subject, if IsJsxSource(f.react) then Some(f.react) else None, None,
                         if IsJsxSource(f.react) then None else Some(f.htmlContent),
                         if IsJsxSource(f.react) then Jsx else Html, f.htmlContent, f.plainText),
                 seed.author, Some(f.subject), true, false, None)]
  {
    hide IsJsxSource;
  }

  /** The rules of a conflict stand in one order: what is sent, then newer work,
      then the subject. */
  lemma RulesInOrder(s: State, row: Row, requested: string)
    ensures var rules := Rules(s, row, requested);
            rules == (if PublishedByOperator in rules then [PublishedByOperator] else [])
                     + (if NewerOperatorVersion in rules then [NewerOperatorVersion] else [])
                     + (if OperatorSubject in rules then [OperatorSubject] else [])
  {
    hide OperatorVersions, LastSeed, KeptAnOperatorsSubject;
  }

  // ---- Archiving and erasing -----------------------------------------------

  /** Archiving and bringing back change that alone. */
  lemma ArchivingExactly(s: State)
    requires s.row.Some?
    ensures Step(s, OpArchive) == State(Some(s.row.value.(archived := true)), s.versions)
    ensures Step(s, OpUnarchive) == State(Some(s.row.value.(archived := false)), s.versions)
  {
  }

  /** Erasing an account takes its author off every version it signed, and
      changes nothing else of any. */
  lemma ErasingExactly(s: State, sub: string)
    requires sub != Erasure.DELETED_SUBJECT
    ensures var after := Step(s, OpErase(sub));
            && after.row == s.row && |after.versions| == |s.versions|
            && forall i | 0 <= i < |s.versions| ::
                 var v, w := s.versions[i], after.versions[i];
                 && w.author.sub != Some(sub)
                 && w.content == v.content && w.requested == v.requested && w.published == v.published
                 && w.discarded == v.discarded && w.base == v.base && w.author.kind == v.author.kind
                 && (v.author.sub != Some(sub) ==> w == v)
                 && (v.author.sub == Some(sub) ==>
                       w.author == Author(v.author.kind, Some(Erasure.DELETED_SUBJECT), Some(Erasure.DELETED_NAME)))
  {
  }

  // ---- JSX sources ---------------------------------------------------------

  /** A character outside a comment is kept: any but a '/' that starts a line
      comment or a block comment that is closed. */
  lemma OthersAreKept(c: char, rest: string)
    requires c == '/' ==> rest == "" || !(rest[0] == '/' || (rest[0] == '*' && IsClosed(rest[1..])))
    ensures WithoutComments([c] + rest) == [c] + WithoutComments(rest)
  {
    var s := [c] + rest;
    assert s[1..] == rest;
    if |s| >= 2 && s[0] == '/' && s[1] == '*' {
      assert s[2..] == rest[1..];
      NotClosed(s, 2);
    }
  }

  predicate IsClosed(s: string) {
    exists i | 0 <= i < |s| - 1 :: s[i] == '*' && s[i + 1] == '/'
  }

  lemma ClosedLater(s: string)
    requires s != ""
    ensures IsClosed(s[1..]) ==> IsClosed(s)
  {
    var rest := s[1..];
    if i :| 0 <= i < |rest| - 1 && rest[i] == '*' && rest[i + 1] == '/' {
      assert s[i + 1] == '*' && s[i + 2] == '/';
    }
  }

  lemma {:induction false} NotClosed(s: string, from: nat)
    requires from <= |s| && !IsClosed(s[from..])
    ensures BlockEnd(s, from).None?
    decreases |s| - from
  {
    if from + 2 <= |s| {
      assert s[from..][0] == s[from] && s[from..][1] == s[from + 1];
      ClosedLater(s[from..]);
      assert s[from..][1..] == s[from + 1..];
      NotClosed(s, from + 1);
    }
  }

  /** Code is kept whole as a JSX source exactly when something but white space
      is left of it without its comments. */
  lemma SourceExactly(code: string)
    ensures JsxSource(code) == if AllOf(WithoutComments(code), IsBlank) then None else Some(code)
    ensures WithoutComments("") == ""
  {
    hide WithoutComments;
    NothingIsLeft();
    var left := WithoutComments(code);
    if !AllOf(left, IsBlank) {
      var i :| 0 <= i < |left| && !IsBlank(left[i]);
    }
  }

  lemma NothingIsLeft()
    ensures WithoutComments("") == ""
  {
  }
}
