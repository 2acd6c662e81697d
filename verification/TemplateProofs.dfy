// What every history of a template keeps: row and history agree, no update
// is lost, and what a Template seed may write over.
module TemplateProofs {
  import opened Options
  import opened JsxSources
  import opened Templates
  import Erasure

  // ---- The invariant of every run -----------------------------------------

  /** The row sends what the version says, and react_email_content holds its
      JSX source when JSX is the Main source and no other JSX source. */
  predicate Agrees(row: Row, c: Content) {
    && row.name == c.name
    && row.subject == c.subject
    && row.htmlContent == c.htmlContent
    && row.plainText == c.plainText
    && (if c.main.Jsx? then JsxSource(row.react) == c.jsx else JsxSource(row.react) in {None, c.jsx})
  }

  predicate RowAgrees(s: State) {
    s.row.Some? && s.row.value.published.Some? ==>
      var id := s.row.value.published.value;
      id < |s.versions| && s.versions[id].published && Agrees(s.row.value, s.versions[id].content)
  }

  /** No version of an unpublished template is published. */
  predicate PublishedNamed(s: State) {
    s.row.None? || s.row.value.published.None? ==> forall v | v in s.versions :: !v.published
  }

  predicate VersionHolds(v: Version) {
    && SourceError(v.content) == None
    && !(v.published && v.discarded)
    && (v.author.kind.TemplateSeed? ==> v.published && v.requested == Some(v.content.subject))
    && (v.author.kind.Operator? ==> v.requested == None)
  }

  predicate VersionsHold(versions: seq<Version>) {
    forall v | v in versions :: VersionHolds(v)
  }

  /** Every base is an earlier published version, and a version that started
      from none was written before its template had any other. */
  predicate BasesHold(versions: seq<Version>) {
    forall i | 0 <= i < |versions| && versions[i].base.Some? ::
      versions[i].base.value < i && versions[versions[i].base.value].published
  }

  /** A seed's version that is sent is the last one a seed wrote. */
  predicate SeedLast(s: State) {
    s.row.Some? && s.row.value.published.Some? && s.row.value.published.value < |s.versions|
    && s.versions[s.row.value.published.value].author.kind.TemplateSeed? ==>
      LastSeed(s.versions) == s.row.value.published
  }

  predicate Inv(s: State) {
    && (s.row.None? ==> s.versions == [])
    && RowAgrees(s)
    && PublishedNamed(s)
    && VersionsHold(s.versions)
    && BasesHold(s.versions)
    && SeedLast(s)
  }

  lemma LastSeedAppended(versions: seq<Version>, v: Version)
    ensures LastSeed(versions + [v]) == if v.author.kind.TemplateSeed? then Some(|versions|) else LastSeed(versions)
  {
    assert (versions + [v])[..|versions|] == versions;
  }

  /** Publishing or discarding a version leaves the last seed's as it was. */
  lemma LastSeedUpdated(versions: seq<Version>, id: VersionId, v: Version)
    requires id < |versions| && v.author == versions[id].author
    ensures LastSeed(versions[id := v]) == LastSeed(versions)
  {
    var a, b := LastSeed(versions), LastSeed(versions[id := v]);
    assert a.Some? ==> versions[id := v][a.value].author.kind.TemplateSeed?;
    assert b.Some? ==> versions[b.value].author.kind.TemplateSeed?;
  }

  lemma LastSeedResigned(versions: seq<Version>, sub: string)
    ensures LastSeed(Resigned(versions, sub)) == LastSeed(versions)
  {
    var a, b := LastSeed(versions), LastSeed(Resigned(versions, sub));
    assert a.Some? ==> Resigned(versions, sub)[a.value].author.kind.TemplateSeed?;
    assert b.Some? ==> versions[b.value].author.kind.TemplateSeed?;
  }

  lemma ErasureKeeps(s: State, sub: string)
    requires Inv(s)
    ensures Inv(s.(versions := Resigned(s.versions, sub)))
  {
    hide IsJsxSource, JsxSource, LastSeed, Agrees, SourceError;
    var after := Resigned(s.versions, sub);
    LastSeedResigned(s.versions, sub);
    forall i | 0 <= i < |after|
      ensures VersionHolds(after[i]) && after[i].published == s.versions[i].published
              && after[i].base == s.versions[i].base
    {
      assert s.versions[i] in s.versions && VersionHolds(s.versions[i]);
    }
  }

  lemma DraftKeeps(s: State, row: Row, author: Author, base: Option<VersionId>, continued: Option<VersionId>,
                   c: Content, check: Check)
    requires Inv(s) && Lock(s) == Some(row) && IsBase(s, row, base)
    ensures Inv(WriteDraft(s, row, author, base, continued, c, check).0)
  {
    hide IsJsxSource, JsxSource, LastSeed, Agrees, SourceError;
    var after := WriteDraft(s, row, author, base, continued, c, check).0;
    if after != s {
      LastSeedAppended(s.versions, after.versions[|s.versions|]);
    }
  }

  lemma PublishKeeps(s: State, id: VersionId, over: Option<VersionId>, check: Check)
    requires Inv(s)
    ensures Inv(Publish(s, id, over, check).0)
  {
    hide IsJsxSource, LastSeed;
    var after := Publish(s, id, over, check).0;
    if after != s {
      var v := s.versions[id];
      assert v in s.versions && VersionHolds(v);
      LastSeedUpdated(s.versions, id, v.(published := true));
      assert forall w | w in after.versions :: w in s.versions || w == v.(published := true);
    }
  }

  lemma DiscardKeeps(s: State, id: VersionId)
    requires Inv(s)
    ensures Inv(Discard(s, id).0)
  {
    hide IsJsxSource, JsxSource, LastSeed, Agrees, SourceError;
    var after := Discard(s, id).0;
    if after != s {
      var v := s.versions[id];
      assert v in s.versions && VersionHolds(v);
      LastSeedUpdated(s.versions, id, v.(discarded := true));
      assert forall w | w in after.versions :: w in s.versions || w == v.(discarded := true);
    }
  }

  /** A version built from a row holds its Main source, whatever was written,
      and the row agrees with it. */
  lemma CandidateHolds(row: Row, p: Option<Content>)
    requires p.Some? ==> SourceError(p.value) == None
    ensures SourceError(Candidate(row, p)) == None
    ensures Agrees(row, Candidate(row, p))
  {
    hide IsJsxSource;
  }

  lemma RecordRowKeeps(s: State, row: Row, author: Author, requested: Option<string>)
    requires Inv(s) && row.published == (if s.row.Some? then s.row.value.published else None)
    requires author.kind.TemplateSeed? ==> requested == Some(row.subject)
    requires author.kind.Operator? ==> requested == None
    ensures Inv(RecordRow(row, s.versions, author, requested).0)
  {
    hide IsJsxSource, JsxSource, LastSeed, SourceError, Candidate;
    var p := ContentOf(State(Some(row), s.versions), row.published);
    assert p.Some? ==> s.versions[row.published.value] in s.versions;
    CandidateHolds(row, p);
    var (after, recorded) := RecordRow(row, s.versions, author, requested);
    if recorded {
      LastSeedAppended(s.versions, after.versions[|s.versions|]);
    }
  }

  lemma StepKeeps(s: State, op: Op)
    requires Inv(s) && IsCall(op)
    ensures Inv(Step(s, op))
  {
    hide IsJsxSource, JsxSource, LastSeed, SourceError, Candidate, WriteDraft, SavedContent, ContinuedVersion,
      RecordRow, Publish, Discard, Rules, OperatorVersions;
    match op
    case OpSave(author, base, content, check) =>
      if Lock(s).Some? && IsBase(s, Lock(s).value, base) {
        var continued := ContinuedVersion(s, author, base);
        DraftKeeps(s, Lock(s).value, author, base, continued,
            SavedContent(s, Lock(s).value, continued, content), check);
      }
    case OpRestore(author, id, check) =>
      if Lock(s).Some? && Find(s, id).Some? && IsBase(s, Lock(s).value, Lock(s).value.published) {
        var base := Lock(s).value.published;
        DraftKeeps(s, Lock(s).value, author, base, ContinuedVersion(s, author, base), s.versions[id].content, check);
      }
    case OpPublish(id, over, check) => PublishKeeps(s, id, over, check);
    case OpDiscard(id) => DiscardKeeps(s, id);
    case OpPanel(author, fields, fails) =>
      if PanelRow(s, fields).Some? {
        RecordRowKeeps(s, PanelRow(s, fields).value, author, None);
      }
    case OpSeed(seed) =>
      RecordRowKeeps(s, UpsertedRow(s, seed.fields), seed.author, Some(seed.fields.subject));
    case OpArchive =>
    case OpUnarchive =>
    case OpErase(sub) => ErasureKeeps(s, sub);
  }

  /** Row and history agree in every reachable state. */
  lemma {:induction false} RunKeeps(s: State, ops: seq<Op>)
    requires Initial(s) && IsRun(ops)
    ensures Inv(Run(s, ops))
  {
    if ops != [] {
      RunKeeps(s, ops[..|ops| - 1]);
      StepKeeps(Run(s, ops[..|ops| - 1]), ops[|ops| - 1]);
    }
  }

  // ---- The history is append-only, and nothing published is lost -----------

  function PublishedId(s: State): (r: Option<VersionId>) {
    if s.row.Some? then s.row.value.published else None
  }

  /** What later states keep of a version: everything but its two marks, and
      the marks once set; and who wrote it until their account is erased. */
  predicate Remains(v: Version, w: Version) {
    && w.content == v.content && w.requested == v.requested && w.base == v.base
    && w.author.kind == v.author.kind
    && (w.author == v.author
       || (w.author.sub == Some(Erasure.DELETED_SUBJECT) && w.author.name == Some(Erasure.DELETED_NAME)))
    && (v.published ==> w.published)
    && (v.discarded ==> w.discarded)
  }

  predicate Grows(a: State, b: State) {
    && |a.versions| <= |b.versions|
    && forall i | 0 <= i < |a.versions| :: Remains(a.versions[i], b.versions[i])
  }

  /** A step that changes the version sent from A to B: B started from A, or
      it is a publish that named A as the version to replace. */
  predicate Replaces(a: State, b: State, op: Op) {
    PublishedId(a) != PublishedId(b) ==>
      && PublishedId(b).Some?
      && PublishedId(b).value < |b.versions|
      && (b.versions[PublishedId(b).value].base == PublishedId(a)
          || (op.OpPublish? && op.over.Some? && op.over == PublishedId(a)))
  }

  /** A version a step adds started from a published version; from the one
      sent when the step is not a save; and from none only when none was sent. */
  predicate StartsFromPublished(a: State, b: State, op: Op) {
    |b.versions| > |a.versions| ==>
      && |b.versions| == |a.versions| + 1
      && var base := b.versions[|a.versions|].base;
      && (!op.OpSave? ==> base == PublishedId(a))
      && (base.None? ==> PublishedId(a) == None)
      && (base.Some? ==> base.value < |a.versions| && a.versions[base.value].published)
  }

  /** The five things a step can do to the history and to what is sent. */
  datatype Change =
    | Nothing
    | Drafted
    | Sent
    | Marked(id: VersionId)
    | Unsigning(sub: string)

  ghost predicate Changes(s: State, op: Op, after: State, change: Change) {
    match change
    case Nothing => after.versions == s.versions && PublishedId(after) == PublishedId(s)
    case Drafted =>
      && (op.OpSave? || op.OpRestore?)
      && PublishedId(after) == PublishedId(s)
      && exists v :: after.versions == s.versions + [v] && IsDraftOf(s, op, v)
    case Sent =>
      && (op.OpPanel? || op.OpSeed?)
      && PublishedId(after) == Some(|s.versions|)
      && exists v :: after.versions == s.versions + [v] && IsWriteOf(s, op, v)
    case Marked(id) =>
      && id < |s.versions| && !s.versions[id].published
      && if op.OpPublish? then
           && after.versions == s.versions[id := s.versions[id].(published := true)]
           && PublishedId(after) == Some(id)
           && !s.versions[id].discarded
           && (s.versions[id].base == PublishedId(s) || (op.over.Some? && op.over == PublishedId(s)))
         else
           && op.OpDiscard?
           && after.versions == s.versions[id := s.versions[id].(discarded := true)]
           && PublishedId(after) == PublishedId(s)
    case Unsigning(sub) =>
      op.OpErase? && after.versions == Resigned(s.versions, sub) && PublishedId(after) == PublishedId(s)
  }

  predicate IsDraftOf(s: State, op: Op, v: Version) {
    && !v.published && !v.discarded && v.author.kind.Operator?
    && (v.base == PublishedId(s)
        || (op.OpSave? && v.base.Some? && v.base.value < |s.versions| && s.versions[v.base.value].published))
  }

  predicate IsWriteOf(s: State, op: Op, v: Version) {
    && v.published && !v.discarded && v.base == PublishedId(s)
    && (op.OpSeed? <==> v.author.kind.TemplateSeed?)
  }

  lemma DraftChange(s: State, op: Op) returns (change: Change)
    requires Inv(s) && IsCall(op) && (op.OpSave? || op.OpRestore?)
    ensures Changes(s, op, Step(s, op), change)
  {
    hide IsJsxSource, JsxSource, LastSeed, Agrees, SourceError, Candidate, Keeping, NewestOf, Rules,
      OperatorVersions, SavedContent;
    var after := Step(s, op);
    change := if after.versions == s.versions then Nothing else Drafted;
    if change == Drafted {
      assert IsDraftOf(s, op, after.versions[|s.versions|]);
    }
  }

  lemma SendChange(s: State, op: Op) returns (change: Change)
    requires Inv(s) && IsCall(op) && (op.OpPanel? || op.OpSeed?)
    ensures Changes(s, op, Step(s, op), change)
  {
    hide IsJsxSource, JsxSource, LastSeed, Agrees, SourceError, Candidate, Keeping, NewestOf, Rules,
      OperatorVersions, SavedContent;
    var after := Step(s, op);
    change := if after.versions == s.versions then Nothing else Sent;
    if change == Sent {
      assert IsWriteOf(s, op, after.versions[|s.versions|]);
    }
  }

  lemma ChangeOf(s: State, op: Op) returns (change: Change)
    requires Inv(s) && IsCall(op)
    ensures Changes(s, op, Step(s, op), change)
  {
    hide IsJsxSource, JsxSource, LastSeed, Agrees, SourceError, Candidate, Keeping, NewestOf, Rules,
      OperatorVersions, SavedContent;
    var after := Step(s, op);
    match op
    case OpSave(_, _, _, _) => change := DraftChange(s, op);
    case OpRestore(_, _, _) => change := DraftChange(s, op);
    case OpPublish(id, _, _) => change := if after == s then Nothing else Marked(id);
    case OpDiscard(id) => change := if after == s then Nothing else Marked(id);
    case OpPanel(_, _, _) => change := SendChange(s, op);
    case OpSeed(_) => change := SendChange(s, op);
    case OpArchive => change := Nothing;
    case OpUnarchive => change := Nothing;
    case OpErase(sub) => change := Unsigning(sub);
  }

  lemma ChangeReplacesOnlyTheNamed(s: State, op: Op, after: State, change: Change)
    requires Inv(s) && Changes(s, op, after, change)
    ensures Grows(s, after)
    ensures Replaces(s, after, op)
    ensures StartsFromPublished(s, after, op)
  {
    hide IsJsxSource, JsxSource, LastSeed, Agrees, SourceError;
  }

  lemma StepReplacesOnlyTheNamed(s: State, op: Op)
    requires Inv(s) && IsCall(op)
    ensures Grows(s, Step(s, op))
    ensures Replaces(s, Step(s, op), op)
    ensures StartsFromPublished(s, Step(s, op), op)
  {
    var change := ChangeOf(s, op);
    ChangeReplacesOnlyTheNamed(s, op, Step(s, op), change);
  }

  /** No lost update, at every step of every run: a version is only ever
      replaced by one that started from it, or by a publish that named it. */
  lemma NoLostUpdate(s: State, ops: seq<Op>, i: nat)
    requires Initial(s) && IsRun(ops) && i < |ops|
    ensures Replaces(Run(s, ops[..i]), Run(s, ops[..i + 1]), ops[i])
    ensures StartsFromPublished(Run(s, ops[..i]), Run(s, ops[..i + 1]), ops[i])
  {
    assert ops[..i + 1][..i] == ops[..i];
    RunKeeps(s, ops[..i]);
    StepReplacesOnlyTheNamed(Run(s, ops[..i]), ops[i]);
  }

  lemma {:induction false} HistoryOnlyGrows(s: State, ops: seq<Op>, i: nat)
    requires Initial(s) && IsRun(ops) && i <= |ops|
    ensures Grows(Run(s, ops[..i]), Run(s, ops))
    decreases |ops|
  {
    if i == |ops| {
      assert ops[..i] == ops;
    } else {
      var before := ops[..|ops| - 1];
      assert before[..i] == ops[..i];
      HistoryOnlyGrows(s, before, i);
      RunKeeps(s, before);
      StepReplacesOnlyTheNamed(Run(s, before), ops[|ops| - 1]);
    }
  }

  /** A draft that is discarded at one time is never sent at any later one. */
  lemma DiscardedIsNeverSent(s: State, ops: seq<Op>, i: nat, id: VersionId)
    requires Initial(s) && IsRun(ops) && i <= |ops|
    requires id < |Run(s, ops[..i]).versions| && Run(s, ops[..i]).versions[id].discarded
    ensures PublishedId(Run(s, ops)) != Some(id)
  {
    HistoryOnlyGrows(s, ops, i);
    RunKeeps(s, ops);
    assert Run(s, ops).versions[id] in Run(s, ops).versions;
  }

  /** A version, the one it started from, and so on back. */
  function Ancestry(versions: seq<Version>, id: Option<VersionId>): (r: set<VersionId>)
    decreases if id.Some? then id.value + 1 else 0
  {
    if id.None? || id.value >= |versions| then {}
    else
      var base := versions[id.value].base;
      {id.value} + (if base.Some? && base.value < id.value then Ancestry(versions, base) else {})
  }

  lemma {:induction false} AncestryRemains(a: seq<Version>, b: seq<Version>, id: Option<VersionId>)
    requires |a| <= |b| && forall i | 0 <= i < |a| :: b[i].base == a[i].base
    requires id.Some? ==> id.value < |a|
    ensures Ancestry(b, id) == Ancestry(a, id)
    decreases if id.Some? then id.value + 1 else 0
  {
    if id.Some? && a[id.value].base.Some? && a[id.value].base.value < id.value {
      AncestryRemains(a, b, a[id.value].base);
    }
  }

  predicate EveryPublishedIsBehind(s: State) {
    forall i | 0 <= i < |s.versions| && s.versions[i].published :: i in Ancestry(s.versions, PublishedId(s))
  }

  /** In a run without overrides nothing published is ever reverted unseen:
      every version ever sent is one the version sent now was built on. */
  lemma {:induction false} EveryPublishedVersionIsBuiltOn(s: State, ops: seq<Op>)
    requires Initial(s) && IsRun(ops)
    requires forall i | 0 <= i < |ops| && ops[i].OpPublish? :: ops[i].over == None
    ensures EveryPublishedIsBehind(Run(s, ops))
  {
    if ops != [] {
      var before, op := ops[..|ops| - 1], ops[|ops| - 1];
      EveryPublishedVersionIsBuiltOn(s, before);
      RunKeeps(s, before);
      BuiltOnStep(Run(s, before), op);
    }
  }

  lemma BuiltOnStep(s: State, op: Op)
    requires Inv(s) && IsCall(op) && EveryPublishedIsBehind(s)
    requires op.OpPublish? ==> op.over == None
    ensures EveryPublishedIsBehind(Step(s, op))
  {
    var change := ChangeOf(s, op);
    StepKeeps(s, op);
    BuiltOnChange(s, op, Step(s, op), change);
  }

  lemma BuiltOnChange(s: State, op: Op, after: State, change: Change)
    requires Inv(s) && Inv(after) && EveryPublishedIsBehind(s)
    requires Changes(s, op, after, change)
    requires op.OpPublish? ==> op.over == None
    ensures EveryPublishedIsBehind(after)
  {
    hide IsJsxSource, JsxSource, LastSeed, Agrees, SourceError;
    ChangeReplacesOnlyTheNamed(s, op, after, change);
    AncestryRemains(s.versions, after.versions, PublishedId(s));
    var sent := PublishedId(after);
    if sent != PublishedId(s) {
      var base := after.versions[sent.value].base;
      assert Ancestry(after.versions, sent) == {sent.value} + Ancestry(after.versions, base);
    }
  }

  // ---- What a Template seed may write over ---------------------------------

  datatype Word = NoOnes | Operators | Seeds

  /** Who last changed which version the template sends. */
  function LastWord(s: State, ops: seq<Op>): (r: Word) {
    if ops == [] then NoOnes
    else
      var before, op := ops[..|ops| - 1], ops[|ops| - 1];
      if PublishedId(Run(s, ops)) == PublishedId(Run(s, before)) then LastWord(s, before)
      else if op.OpSeed? then Seeds else Operators
  }

  predicate WordHolds(s: State, word: Word) {
    match word
    case NoOnes => PublishedId(s) == None && LastSeed(s.versions) == None
    case Seeds => PublishedId(s).Some? && LastSeed(s.versions) == PublishedId(s)
    case Operators => PublishedId(s).Some? && LastSeed(s.versions) != PublishedId(s)
  }

  lemma {:induction false} WordsHold(s: State, ops: seq<Op>)
    requires Initial(s) && IsRun(ops)
    ensures WordHolds(Run(s, ops), LastWord(s, ops))
  {
    if ops != [] {
      var before, op := ops[..|ops| - 1], ops[|ops| - 1];
      WordsHold(s, before);
      RunKeeps(s, before);
      WordStep(Run(s, before), op, LastWord(s, before));
    }
  }

  lemma WordStep(s: State, op: Op, word: Word)
    requires Inv(s) && IsCall(op) && WordHolds(s, word)
    ensures WordHolds(Step(s, op), WordAfter(s, op, Step(s, op), word))
  {
    var change := ChangeOf(s, op);
    StepKeeps(s, op);
    WordChange(s, op, Step(s, op), change, word);
  }

  function WordAfter(s: State, op: Op, after: State, word: Word): (r: Word) {
    if PublishedId(after) == PublishedId(s) then word else if op.OpSeed? then Seeds else Operators
  }

  lemma WordChange(s: State, op: Op, after: State, change: Change, word: Word)
    requires Inv(s) && Inv(after) && Changes(s, op, after, change) && WordHolds(s, word)
    ensures WordHolds(after, WordAfter(s, op, after, word))
  {
    hide IsJsxSource, JsxSource, LastSeed, Agrees, SourceError;
    match change
    case Nothing =>
    case Drafted =>
      var v :| after.versions == s.versions + [v] && IsDraftOf(s, op, v);
      LastSeedAppended(s.versions, v);
    case Sent =>
      var v :| after.versions == s.versions + [v] && IsWriteOf(s, op, v);
      LastSeedAppended(s.versions, v);
    case Marked(id) =>
      LastSeedUpdated(s.versions, id, after.versions[id]);
      assert s.versions[id] in s.versions;
    case Unsigning(sub) => LastSeedResigned(s.versions, sub);
  }

  /** The rules of a conflict, in every run: an operator had the last word on
      what is sent; an operator's version not discarded is newer than the last
      seed; and the subject sent is one neither the last seed sent nor this one
      asks for, which only ever comes with the first. */
  lemma RulesExactly(s: State, ops: seq<Op>, requested: string)
    requires Initial(s) && IsRun(ops) && Run(s, ops).row.Some?
    ensures var t := Run(s, ops);
            var rules := Rules(t, t.row.value, requested);
            && (PublishedByOperator in rules <==> LastWord(s, ops) == Operators)
            && (NewerOperatorVersion in rules <==> HasNewerWork(t.versions))
            && (OperatorSubject in rules ==> PublishedByOperator in rules)
            && (OperatorSubject in rules <==> IsOperatorsSubject(t, requested))
  {
    RunKeeps(s, ops);
    WordsHold(s, ops);
    RulesOf(Run(s, ops), LastWord(s, ops), requested);
  }

  /** An operator's version that is not discarded, written after the last seed. */
  predicate HasNewerWork(versions: seq<Version>) {
    HasWorkFrom(versions, AfterSeed(LastSeed(versions)))
  }

  predicate HasWorkFrom(versions: seq<Version>, from: nat) {
    exists i | from <= i < |versions| :: IsOperatorWork(versions[i])
  }

  /** The subject sent is neither the one asked for now nor the last seed's. */
  predicate IsOperatorsSubject(t: State, requested: string)
    requires t.row.Some?
  {
    var last := LastSeed(t.versions);
    last.Some? && t.row.value.subject != requested && t.row.value.subject != t.versions[last.value].content.subject
  }

  lemma RulesOf(t: State, word: Word, requested: string)
    requires Inv(t) && WordHolds(t, word) && t.row.Some?
    ensures var rules := Rules(t, t.row.value, requested);
            && (PublishedByOperator in rules <==> word == Operators)
            && (NewerOperatorVersion in rules <==> HasNewerWork(t.versions))
            && (OperatorSubject in rules ==> PublishedByOperator in rules)
            && (OperatorSubject in rules <==> IsOperatorsSubject(t, requested))
  {
    hide IsJsxSource, JsxSource, LastSeed, OperatorVersions, SourceError;
    var last := LastSeed(t.versions);
    if last.Some? {
      assert t.versions[last.value] in t.versions;
    }
    WorkListed(t.versions, AfterSeed(last));
  }

  lemma WorkListed(versions: seq<Version>, from: nat)
    ensures OperatorVersions(versions, from) != [] <==> HasWorkFrom(versions, from)
  {
    var work := OperatorVersions(versions, from);
    if work != [] {
      assert work[0] in work;
    }
    if i :| from <= i < |versions| && IsOperatorWork(versions[i]) {
      assert i in work;
    }
  }

  /** What a conflict names: the version sent, the last seed's, every operator's
      version since, and both subjects. */
  ghost predicate NamesVersions(t: State, c: Conflict, requested: string)
    requires t.row.Some?
  {
    && c.published == (if PublishedId(t).Some? then Some(Summary(PublishedId(t).value, true)) else None)
    && (c.lastSeed.Some? <==> exists v | v in t.versions :: v.author.kind.TemplateSeed?)
    && (c.lastSeed.Some? ==>
          && c.lastSeed.value.id < |t.versions| && t.versions[c.lastSeed.value.id].author.kind.TemplateSeed?
          && (c.lastSeed.value.current <==> PublishedId(t) == Some(c.lastSeed.value.id)))
    && (forall id: VersionId :: id in c.operatorVersions <==> IsSinceTheLastSeed(t.versions, id))
    && c.subject == t.row.value.subject && c.requestedSubject == requested
  }

  predicate IsSinceTheLastSeed(versions: seq<Version>, id: VersionId) {
    id < |versions| && IsOperatorWork(versions[id])
    && forall later | id < later < |versions| :: !versions[later].author.kind.TemplateSeed?
  }

  /** In every run a seed meets a conflict exactly when an operator had the last
      word on what is sent or has newer work. */
  lemma ConflictExactly(s: State, ops: seq<Op>, requested: string)
    requires Initial(s) && IsRun(ops) && Run(s, ops).row.Some?
    ensures var t := Run(s, ops);
            var c := SeedConflict(t, t.row.value, requested);
            && (c.Some? <==> LastWord(s, ops) == Operators || HasNewerWork(t.versions))
            && (c.Some? ==> NamesVersions(t, c.value, requested))
  {
    hide Run, LastWord, Initial, IsRun, HasNewerWork, NamesVersions, Rules, SeedConflict;
    var t := Run(s, ops);
    RulesExactly(s, ops, requested);
    ConflictIsRules(t, requested);
    RulesAre(t, requested);
    if SeedConflict(t, t.row.value, requested).Some? {
      ConflictNames(t, requested);
    }
  }

  lemma ConflictIsRules(t: State, requested: string)
    requires t.row.Some?
    ensures SeedConflict(t, t.row.value, requested).Some? <==> exists rule :: rule in Rules(t, t.row.value, requested)
  {
    hide Rules;
    var rules := Rules(t, t.row.value, requested);
    if rules != [] {
      assert rules[0] in rules;
    }
  }

  lemma ConflictNames(t: State, requested: string)
    requires t.row.Some? && SeedConflict(t, t.row.value, requested).Some?
    ensures NamesVersions(t, SeedConflict(t, t.row.value, requested).value, requested)
  {
    hide Rules, OperatorVersions, LastSeed, IsSinceTheLastSeed;
    var last := LastSeed(t.versions);
    if last.Some? {
      assert t.versions[last.value] in t.versions;
    }
    forall id: VersionId
      ensures id in OperatorVersions(t.versions, AfterSeed(last)) <==> IsSinceTheLastSeed(t.versions, id)
    {
      SinceTheLastSeed(t.versions, id);
    }
  }

  lemma RulesAre(t: State, requested: string)
    requires t.row.Some?
    ensures forall rule | rule in Rules(t, t.row.value, requested) ::
              rule == PublishedByOperator || rule == NewerOperatorVersion || rule == OperatorSubject
  {
  }

  lemma SinceTheLastSeed(versions: seq<Version>, id: VersionId)
    ensures id in OperatorVersions(versions, AfterSeed(LastSeed(versions))) <==> IsSinceTheLastSeed(versions, id)
  {
    var last := LastSeed(versions);
    if id < |versions| && IsOperatorWork(versions[id]) && last.Some? && id <= last.value {
      assert id != last.value && versions[last.value].author.kind.TemplateSeed?;
    }
  }

  lemma SeedAppends(s: State, seed: Seed)
    requires seed.author.kind.TemplateSeed? && |SeedTemplate(s, seed).0.versions| > |s.versions|
    ensures SeedTemplate(s, seed).1.Seeded?
    ensures var after := SeedTemplate(s, seed).0;
            && after.row.Some? && after.row.value.refusal == None && after.row.value.published == Some(|s.versions|)
            && |after.versions| == |s.versions| + 1
            && var v := after.versions[|s.versions|];
              && after.versions == s.versions + [v] && v.author.kind.TemplateSeed?
              && v.requested == Some(after.row.value.subject)
  {
    hide IsJsxSource, JsxSource, LastSeed, OperatorVersions, SourceError, Candidate, Rules;
  }

  lemma JustSeeded(before: seq<Version>, v: Version, t: State, next: string)
    requires t.versions == before + [v] && v.author.kind.TemplateSeed? && t.row.Some?
    requires t.row.value.published == Some(|before|) && v.requested == Some(t.row.value.subject)
    ensures SeedConflict(t, t.row.value, next) == None
  {
    hide LastSeed, OperatorVersions;
    LastSeedAppended(before, v);
    WorkListed(t.versions, |t.versions|);
  }

  /** A seed that records a version, forced or not, leaves no conflict for any
      next payload, and settles a refusal kept before it. */
  lemma RecordedSeedSettles(s: State, seed: Seed, next: string)
    requires seed.author.kind.TemplateSeed? && |SeedTemplate(s, seed).0.versions| > |s.versions|
    ensures SeedTemplate(s, seed).1.Seeded?
    ensures var after := SeedTemplate(s, seed).0;
            after.row.Some? && after.row.value.refusal == None && SeedConflict(after, after.row.value, next) == None
  {
    hide SeedTemplate, SeedConflict;
    SeedAppends(s, seed);
    var after := SeedTemplate(s, seed).0;
    JustSeeded(s.versions, after.versions[|s.versions|], after, next);
  }

  /** Whether a seed would change anything a version holds. */
  predicate WouldRecord(s: State, seed: Seed) {
    RecordRow(UpsertedRow(s, seed.fields), s.versions, seed.author, Some(seed.fields.subject)).1
  }

  /** A seed is refused exactly when it is unforced, would record a version
      and meets a conflict; and then the template, its history and what it
      sends are as before, but for the refusal it keeps. */
  lemma RefusedExactly(s: State, seed: Seed)
    ensures var (after, result) := SeedTemplate(s, seed);
            && (result.SeedRefused? <==>
                !seed.fails && !seed.force && WouldRecord(s, seed)
                && s.row.Some? && Rules(s, s.row.value, seed.fields.subject) != [])
            && (result.SeedRefused? ==>
                && after.versions == s.versions
                && after.row.Some? && after.row.value.(refusal := s.row.value.refusal) == s.row.value
                && after.row.value.refusal.Some?
                && after.row.value.refusal.value.rules == Rules(s, s.row.value, seed.fields.subject) != []
                && after.row.value.refusal.value.payload == seed.payload)
            && (result.Seeded? ==> after.row == Some(result.row) && result.row.refusal == None)
            && (result.SeedFailed? ==> after == s)
  {
    hide IsJsxSource, JsxSource, LastSeed, OperatorVersions, Candidate, KeptAnOperatorsSubject;
  }

  /** The same payload refused again keeps when it was first refused; another
      payload starts over. */
  lemma RefusalKeepsItsFirstTime(s: State, first: Seed, again: Seed)
    requires SeedTemplate(s, first).1.SeedRefused?
    requires SeedTemplate(SeedTemplate(s, first).0, again).1.SeedRefused?
    ensures var a := SeedTemplate(s, first).0.row.value.refusal.value.since;
            SeedTemplate(SeedTemplate(s, first).0, again).0.row.value.refusal.value.since
            == if again.payload == first.payload then a else again.at
  {
    hide IsJsxSource, JsxSource, LastSeed, OperatorVersions, Candidate, Rules;
  }

  /** What a forced seed returns as written over: the versions it names are as
      before, and none of them is the one sent any more. */
  lemma ForcedSeedOverrides(s: State, seed: Seed)
    requires Inv(s) && seed.author.kind.TemplateSeed?
    requires SeedTemplate(s, seed).1.Seeded? && SeedTemplate(s, seed).1.overrode.Some?
    ensures seed.force && WouldRecord(s, seed) && s.row.Some?
    ensures var c := SeedConflict(s, s.row.value, seed.fields.subject);
            var o := SeedTemplate(s, seed).1.overrode.value;
            && c.Some?
            && o.rules == c.value.rules && o.operatorVersions == c.value.operatorVersions
            && (o.published.Some? <==> c.value.published.Some?)
            && (o.published.Some? ==> o.published.value == Summary(c.value.published.value.id, false)
                                      && c.value.published.value.current)
            && (o.lastSeed.Some? <==> c.value.lastSeed.Some?)
            && (o.lastSeed.Some? ==> o.lastSeed.value == Summary(c.value.lastSeed.value.id, false))
  {
    hide IsJsxSource, JsxSource, LastSeed, OperatorVersions, Agrees, SourceError, Candidate, Rules;
    var after := SeedTemplate(s, seed).0;
    var last := LastSeed(s.versions);
    OperatorVersionsAppended(s.versions, after.versions[|s.versions|], AfterSeed(last));
    assert after.versions == s.versions + [after.versions[|s.versions|]];
  }

  lemma OperatorVersionsAppended(versions: seq<Version>, v: Version, from: nat)
    requires !IsOperatorWork(v) && from <= |versions|
    ensures OperatorVersions(versions + [v], from) == OperatorVersions(versions, from)
  {
    assert (versions + [v])[..|versions|] == versions;
  }

  /** A seed that only repeats an operator's published content does not lift
      the conflict: a later differing one is still refused. */
  lemma RepeatingSeedLiftsNothing(s: State, seed: Seed, later: Seed)
    requires Inv(s) && seed.author.kind.TemplateSeed?
    requires s.row.Some? && s.row.value.published != LastSeed(s.versions)
    requires !seed.fails && !WouldRecord(s, seed)
    ensures SeedTemplate(s, seed).1.Seeded?
    ensures var after := SeedTemplate(s, seed).0;
            && after.versions == s.versions
            && PublishedId(after) == PublishedId(s)
            && (!later.fails && !later.force && WouldRecord(after, later) ==>
                SeedTemplate(after, later).1.SeedRefused?
                && PublishedByOperator in SeedTemplate(after, later).1.conflict.rules)
  {
    hide IsJsxSource, JsxSource, LastSeed, OperatorVersions, Agrees, SourceError, Candidate;
    var after := SeedTemplate(s, seed).0;
    assert PublishedByOperator == Rules(after, after.row.value, later.fields.subject)[0];
  }
}
