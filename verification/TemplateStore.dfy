// The template calls as the store runs them: transactions that read, decide
// and change the row and the version table in place. Each is proved to be the
// step Templates gives it, so what is proved of runs of steps holds of it.
module TemplateStores {
  import opened Options
  import opened JsxSources
  import opened Templates

  /** ListTemplateDrafts: each operator's draft in progress, newest first. */
  function ListDrafts(versions: seq<Version>): (r: seq<VersionId>)
    ensures forall id: VersionId :: id in r <==> id < |versions| && InProgress(versions, id)
    ensures forall i, j | 0 <= i < j < |r| :: r[j] < r[i]
  {
    ListDraftsBelow(versions, |versions|)
  }

  predicate InProgress(versions: seq<Version>, id: VersionId)
    requires id < |versions|
  {
    var v := versions[id];
    v.author.kind.Operator? && NewestOf(versions, v.author.sub) == Some(id) && !v.published && !v.discarded
  }

  function ListDraftsBelow(versions: seq<Version>, n: nat): (r: seq<VersionId>)
    requires n <= |versions|
    ensures forall id: VersionId :: id in r <==> id < n && InProgress(versions, id)
    ensures forall i, j | 0 <= i < j < |r| :: r[j] < r[i]
  {
    if n == 0 then []
    else
      var rest := ListDraftsBelow(versions, n - 1);
      assert forall i | 0 <= i < |rest| :: rest[i] in rest;
      (if InProgress(versions, n - 1) then [n - 1] else []) + rest
  }

  class TemplateStore {
    var row: Option<Row>
    var versions: seq<Version>

    function Snapshot(): (s: State)
      reads this
    {
      State(row, versions)
    }

    constructor (s: State)
      ensures Snapshot() == s
    {
      row, versions := s.row, s.versions;
    }

    /** The author's draft in progress, found among every operator's. */
    method FindDraftInProgress(author: Author) returns (draft: Option<VersionId>)
      ensures draft == DraftInProgress(versions, author.sub)
    {
      var drafts := ListDrafts(versions);
      assert DraftInProgress(versions, author.sub).Some? ==> DraftInProgress(versions, author.sub).value in drafts;
      for i := 0 to |drafts|
        invariant forall j | 0 <= j < i :: drafts[j] < |versions| && versions[drafts[j]].author.sub != author.sub
      {
        assert drafts[i] in drafts;
        if versions[drafts[i]].author.sub == author.sub {
          return Some(drafts[i]);
        }
      }
      return None;
    }

    method FindContinued(author: Author, base: Option<VersionId>) returns (continued: Option<VersionId>)
      ensures continued == ContinuedVersion(Snapshot(), author, base)
    {
      var draft := FindDraftInProgress(author);
      if draft.Some? && versions[draft.value].base == base {
        return draft;
      }
      return base;
    }

    method InsertDraft(locked: Row, author: Author, base: Option<VersionId>, continued: Option<VersionId>,
                       c: Content, check: Check)
      returns (result: Result<Saved, Error>)
      modifies `versions
      ensures (Snapshot(), result) == WriteDraft(old(Snapshot()), locked, author, base, continued, c, check)
    {
      if !HoldsMain(c) {
        return Err(MainSourceMissing(c.main));
      }
      if c.jsx.Some? && !IsJsxSource(c.jsx.value) {
        return Err(NotJsxSource);
      }
      if !check(locked, c) {
        return Err(CheckRefused);
      }
      if continued.Some? && continued.value < |versions| && versions[continued.value].content == c {
        return Ok(Saved(continued.value, false));
      }
      versions := versions + [Version(c, author.(kind := Operator), None, false, false, base)];
      return Ok(Saved(|versions| - 1, true));
    }

    method SaveTemplateDraft(author: Author, base: Option<VersionId>, content: Content, check: Check)
      returns (result: Result<Saved, Error>)
      modifies `versions
      ensures (Snapshot(), result) == SaveDraft(old(Snapshot()), author, base, content, check)
    {
      if row.None? || row.value.archived {
        return Err(NotFound);
      }
      if !IsBase(Snapshot(), row.value, base) {
        return Err(InvalidBase);
      }
      var continued := FindContinued(author, base);
      var c := Keeping(content, ContentOf(Snapshot(), continued));
      if c.name == "" {
        c := c.(name := row.value.name);
      }
      result := InsertDraft(row.value, author, base, continued, c, check);
    }

    method RestoreTemplateVersion(id: VersionId, author: Author, check: Check) returns (result: Result<Saved, Error>)
      modifies `versions
      ensures (Snapshot(), result) == Restore(old(Snapshot()), author, id, check)
    {
      if row.None? || row.value.archived || id >= |versions| {
        return Err(NotFound);
      }
      if !IsBase(Snapshot(), row.value, row.value.published) {
        return Err(InvalidBase);
      }
      var continued := FindContinued(author, row.value.published);
      result := InsertDraft(row.value, author, row.value.published, continued, versions[id].content, check);
    }

    method PublishTemplateDraft(id: VersionId, over: Option<VersionId>, check: Check)
        returns (result: Result<Row, Error>)
      modifies this
      ensures (Snapshot(), result) == Publish(old(Snapshot()), id, over, check)
    {
      if row.None? || row.value.archived || id >= |versions| {
        return Err(NotFound);
      }
      var v := versions[id];
      if v.published {
        if row.value.published == Some(id) {
          return Ok(row.value);
        }
        return Err(NotADraft);
      }
      if v.discarded {
        return Err(DraftDiscarded);
      }
      if v.base != row.value.published && (over.None? || over != row.value.published) {
        return Err(StaleBase(id, v.base, row.value.published));
      }
      if !check(row.value, v.content) {
        return Err(CheckRefused);
      }
      versions := versions[id := v.(published := true)];
      row := Some(Published(row.value, id, v.content));
      return Ok(row.value);
    }

    method DiscardTemplateDraft(id: VersionId) returns (result: Result<Version, Error>)
      modifies `versions
      ensures (Snapshot(), result) == Discard(old(Snapshot()), id)
    {
      if row.None? || row.value.archived || id >= |versions| {
        return Err(NotFound);
      }
      if versions[id].published {
        return Err(NotADraft);
      }
      versions := versions[id := versions[id].(discarded := true)];
      return Ok(versions[id]);
    }

    /** Writes the row and records what it then holds, as one. */
    method WriteAndRecord(written: Row, author: Author, requested: Option<string>) returns (recorded: bool)
      modifies this
      ensures (Snapshot(), recorded) == RecordRow(written, old(versions), author, requested)
    {
      row := Some(written);
      var p := ContentOf(Snapshot(), written.published);
      var c := Candidate(written, p);
      if p == Some(c) {
        return false;
      }
      row := Some(written.(published := Some(|versions|)));
      versions := versions + [Version(c, author, requested, true, false, written.published)];
      return true;
    }

    method PublishTemplateWrite(author: Author, fields: Fields, fails: bool) returns (result: Result<Row, Error>)
      modifies this
      ensures (Snapshot(), result) == PanelWrite(old(Snapshot()), author, fields, fails)
    {
      var written := PanelRow(Snapshot(), fields);
      if written.None? {
        return Err(NotFound);
      }
      if fails {
        return Err(WriteFailed);
      }
      var _ := WriteAndRecord(written.value, author, None);
      return Ok(row.value);
    }

    /** How an operator changed the template since the last seed, rule by rule. */
    method FindConflict(locked: Row, requested: string) returns (conflict: Option<Conflict>)
      ensures conflict == SeedConflict(Snapshot(), locked, requested)
    {
      var last := LastSeed(versions);
      var work := OperatorVersions(versions, AfterSeed(last));
      var rules := [];
      if locked.published != last {
        rules := rules + [PublishedByOperator];
      }
      if |work| > 0 {
        rules := rules + [NewerOperatorVersion];
      }
      if KeptAnOperatorsSubject(if last.Some? then Some(versions[last.value]) else None, locked.subject, requested) {
        rules := rules + [OperatorSubject];
      }
      assert rules == Rules(Snapshot(), locked, requested);
      if rules == [] {
        return None;
      }
      return Some(Conflict(rules, Summarized(locked, locked.published), Summarized(locked, last), work,
                           locked.subject, requested));
    }

    /** The write goes in a savepoint: an unforced one that would overwrite an
        operator's change is undone and the refusal kept. */
    method SeedTemplateByKey(seed: Seed) returns (result: SeedResult)
      modifies this
      ensures (Snapshot(), result) == SeedTemplate(old(Snapshot()), seed)
    {
      var conflict := None;
      if row.Some? {
        conflict := FindConflict(row.value, seed.fields.subject);
      }
      if seed.fails {
        return SeedFailed(WriteFailed);
      }
      var savedRow, savedVersions := row, versions;
      var recorded := WriteAndRecord(UpsertedRow(Snapshot(), seed.fields), seed.author, Some(seed.fields.subject));
      if !recorded || conflict.None? {
        return Seeded(row.value, None);
      }
      if seed.force {
        return Seeded(row.value, Some(Reread(conflict.value, Snapshot(), row.value)));
      }
      row, versions := savedRow, savedVersions;
      row := Some(Refused(row.value, conflict.value.rules, seed.payload, seed.at));
      return SeedRefused(conflict.value);
    }
  }
}
