// A Mail template and its version history: what the drafts, publishes,
// restores, discards, direct row writes and Template seeds do to them.
//
// The state is one template: its row, if it has one, and its versions in the
// order they were written. A version's id is its place in that order, so the
// version numbered seq is versions[seq - 1], and an id that is not a place is
// a version of another template or none at all. Each transaction holds the
// row's lock, so it is one step.
module Templates {
  import opened Options
  import opened JsxSources
  import Erasure

  datatype Mode = Jsx | Visual | Html

  datatype AuthorKind = Operator | TemplateSeed

  datatype Author = Author(kind: AuthorKind, sub: Option<string>, name: Option<string>)

  /** What a version holds apart from who wrote it. A Visual document is kept
      as its canonical JSON text, since it is compared as JSON. */
  datatype Content = Content(
    name: string,
    subject: string,
    jsx: Option<string>,
    visual: Option<string>,
    html: Option<string>,
    main: Mode,
    htmlContent: string,
    plainText: string)

  type VersionId = nat

  datatype Version = Version(
    content: Content,
    author: Author,
    requested: Option<string>,
    published: bool,
    discarded: bool,
    base: Option<VersionId>)

  datatype Rule = PublishedByOperator | NewerOperatorVersion | OperatorSubject

  /** A refused seed, as the row keeps it. */
  datatype Refusal = Refusal(since: int, rules: seq<Rule>, payload: string)

  datatype Row = Row(
    name: string,
    subject: string,
    htmlContent: string,
    plainText: string,
    react: string,
    published: Option<VersionId>,
    archived: bool,
    refusal: Option<Refusal>)

  datatype State = State(row: Option<Row>, versions: seq<Version>)

  datatype Error =
    | NotFound
    | InvalidBase
    | NotADraft
    | DraftDiscarded
    | StaleBase(draft: VersionId, base: Option<VersionId>, published: Option<VersionId>)
    | MainSourceMissing(mode: Mode)
    | NotJsxSource
    | CheckRefused
    | WriteFailed

  /** A draft a call returns, and whether the call wrote it. */
  datatype Saved = Saved(id: VersionId, written: bool)

  /** What a caller refuses content for, with the row locked. */
  type Check = (Row, Content) -> bool

  /** The row as a transaction that does not change it first locks it: an
      archived template is not found. */
  function Lock(s: State): (r: Option<Row>) {
    if s.row.Some? && !s.row.value.archived then s.row else None
  }

  function Find(s: State, id: VersionId): (r: Option<Version>) {
    if id < |s.versions| then Some(s.versions[id]) else None
  }

  // ---- Drafts -------------------------------------------------------------

  /** Whether base can be a draft's base: a published version, or none when
      the template has none. */
  predicate IsBase(s: State, row: Row, base: Option<VersionId>) {
    match base
    case None => row.published == None
    case Some(id) => id < |s.versions| && s.versions[id].published
  }

  /** The newest version an operator with this subject wrote. */
  function NewestOf(versions: seq<Version>, sub: Option<string>): (r: Option<VersionId>)
    ensures r.Some? ==> r.value < |versions| && ByOperator(versions[r.value], sub)
    ensures forall i | 0 <= i < |versions| && ByOperator(versions[i], sub) :: r.Some? && i <= r.value
  {
    if versions == [] then None
    else
      var last := |versions| - 1;
      if ByOperator(versions[last], sub) then Some(last)
      else NewestOf(versions[..last], sub)
  }

  predicate ByOperator(v: Version, sub: Option<string>) {
    v.author.kind.Operator? && v.author.sub == sub
  }

  /** An author's draft in progress: their newest version, when it is neither
      published nor discarded. */
  function DraftInProgress(versions: seq<Version>, sub: Option<string>): (r: Option<VersionId>) {
    match NewestOf(versions, sub)
    case Some(id) => if versions[id].published || versions[id].discarded then None else Some(id)
    case None => None
  }

  function ContinuedVersion(s: State, author: Author, base: Option<VersionId>): (r: Option<VersionId>) {
    match DraftInProgress(s.versions, author.sub)
    case Some(draft) => if s.versions[draft].base == base then Some(draft) else base
    case None => base
  }

  function Keeping(c: Content, from: Option<Content>): (r: Content) {
    match from
    case None => c
    case Some(f) =>
      c.(name := if c.name == "" then f.name else c.name,
         jsx := if c.jsx.None? then f.jsx else c.jsx,
         visual := if c.visual.None? then f.visual else c.visual,
         html := if c.html.None? then f.html else c.html)
  }

  predicate HoldsMain(c: Content) {
    match c.main
    case Jsx => c.jsx.Some?
    case Visual => c.visual.Some?
    case Html => c.html.Some?
  }

  function SourceError(c: Content): (r: Option<Error>) {
    if !HoldsMain(c) then Some(MainSourceMissing(c.main))
    else if c.jsx.Some? && !IsJsxSource(c.jsx.value) then Some(NotJsxSource)
    else None
  }

  function ContentOf(s: State, id: Option<VersionId>): (r: Option<Content>) {
    if id.Some? && id.value < |s.versions| then Some(s.versions[id.value].content) else None
  }

  /** RecordTemplateDraft: a new draft, unless the version it continues holds
      exactly this content already. */
  function RecordDraft(s: State, author: Author, base: Option<VersionId>, continued: Option<VersionId>,
                       c: Content): (r: (State, Saved))
  {
    if ContentOf(s, continued) == Some(c) then (s, Saved(continued.value, false))
    else
      var v := Version(c, Author(Operator, author.sub, author.name), None, false, false, base);
      (s.(versions := s.versions + [v]), Saved(|s.versions|, true))
  }

  function WriteDraft(s: State, row: Row, author: Author, base: Option<VersionId>, continued: Option<VersionId>,
                      c: Content, check: Check): (r: (State, Result<Saved, Error>))
    ensures r.1.Err? ==> r.0 == s
  {
    if SourceError(c).Some? then (s, Err(SourceError(c).value))
    else if !check(row, c) then (s, Err(CheckRefused))
    else
      var (after, saved) := RecordDraft(s, author, base, continued, c);
      (after, Ok(saved))
  }

  /** The content a save stores: what it leaves out is kept from the version
      it continues, and with no name to keep the template's is taken. */
  function SavedContent(s: State, row: Row, continued: Option<VersionId>, c: Content): (r: Content) {
    var kept := Keeping(c, ContentOf(s, continued));
    if kept.name == "" then kept.(name := row.name) else kept
  }

  function SaveDraft(s: State, author: Author, base: Option<VersionId>, c: Content, check: Check)
    : (r: (State, Result<Saved, Error>))
    ensures r.1.Err? ==> r.0 == s
  {
    match Lock(s)
    case None => (s, Err(NotFound))
    case Some(row) =>
      if !IsBase(s, row, base) then (s, Err(InvalidBase))
      else
        var continued := ContinuedVersion(s, author, base);
        WriteDraft(s, row, author, base, continued, SavedContent(s, row, continued, c), check)
  }

  function Restore(s: State, author: Author, id: VersionId, check: Check): (r: (State, Result<Saved, Error>))
    ensures r.1.Err? ==> r.0 == s
  {
    match Lock(s)
    case None => (s, Err(NotFound))
    case Some(row) =>
      if Find(s, id) == None then (s, Err(NotFound))
      else if !IsBase(s, row, row.published) then (s, Err(InvalidBase))
      else
        var continued := ContinuedVersion(s, author, row.published);
        WriteDraft(s, row, author, row.published, continued, s.versions[id].content, check)
  }

  /** The row as publishing a version leaves it. */
  function Published(row: Row, id: VersionId, c: Content): (r: Row) {
    row.(name := c.name,
         subject := c.subject,
         htmlContent := c.htmlContent,
         plainText := c.plainText,
         react := if c.main.Jsx? && c.jsx.Some? then c.jsx.value else "",
         published := Some(id))
  }

  predicate IsStale(row: Row, v: Version, over: Option<VersionId>) {
    v.base != row.published && (over == None || over != row.published)
  }

  function Publish(s: State, id: VersionId, over: Option<VersionId>, check: Check): (r: (State, Result<Row, Error>))
    ensures r.1.Err? ==> r.0 == s
  {
    match Lock(s)
    case None => (s, Err(NotFound))
    case Some(row) =>
      match Find(s, id)
      case None => (s, Err(NotFound))
      case Some(v) =>
        if v.published then (s, if row.published == Some(id) then Ok(row) else Err(NotADraft))
        else if v.discarded then (s, Err(DraftDiscarded))
        else if IsStale(row, v, over) then (s, Err(StaleBase(id, v.base, row.published)))
        else if !check(row, v.content) then (s, Err(CheckRefused))
        else
          var after := Published(row, id, v.content);
          (State(Some(after), s.versions[id := v.(published := true)]), Ok(after))
  }

  function Discard(s: State, id: VersionId): (r: (State, Result<Version, Error>))
    ensures r.1.Err? ==> r.0 == s
  {
    if Lock(s) == None || Find(s, id) == None then (s, Err(NotFound))
    else
      var v := s.versions[id];
      if v.published then (s, Err(NotADraft))
      else (s.(versions := s.versions[id := v.(discarded := true)]), Ok(v.(discarded := true)))
  }

  // ---- Direct row writes --------------------------------------------------

  /** The columns a version is built from, as a direct write sends them. */
  datatype Fields = Fields(name: string, subject: string, htmlContent: string, plainText: string, react: string)

  function Holding(row: Row, f: Fields): (r: Row) {
    row.(name := f.name, subject := f.subject, htmlContent := f.htmlContent, plainText := f.plainText, react := f.react)
  }

  function NewRow(f: Fields): (r: Row) {
    Row(f.name, f.subject, f.htmlContent, f.plainText, f.react, None, false, None)
  }

  /** The old panel's statement: its create when there is no row, its edit
      when there is one that is not archived. */
  function PanelRow(s: State, f: Fields): (r: Option<Row>) {
    match s.row
    case None => Some(NewRow(f))
    case Some(row) => if row.archived then None else Some(Holding(row, f))
  }

  /** The by-key upsert: it brings an archived template back and settles a
      refusal kept before. */
  function UpsertedRow(s: State, f: Fields): (r: Row) {
    match s.row
    case None => NewRow(f)
    case Some(row) => Holding(row, f).(archived := false, refusal := None)
  }

  /** Whether the row's body is the published version's. */
  predicate BodyKept(row: Row, p: Content) {
    row.htmlContent == p.htmlContent && row.plainText == p.plainText && JsxSource(row.react) == p.jsx
  }

  /** The content RecordTemplateRowAsVersion builds from the row, p being the
      published version's when there is one. */
  function Candidate(row: Row, p: Option<Content>): (r: Content) {
    var jsx := JsxSource(row.react);
    var kept := p.Some? && BodyKept(row, p.value);
    Content(
      row.name,
      row.subject,
      if jsx.Some? then jsx else if p.Some? then p.value.jsx else None,
      if p.Some? then p.value.visual else None,
      if kept || jsx.Some? then (if p.Some? then p.value.html else None) else Some(row.htmlContent),
      if kept then p.value.main else if jsx.Some? then Jsx else Html,
      row.htmlContent,
      row.plainText)
  }

  /** RecordTemplateRowAsVersion: the row as a published version, unless that
      is the published version over again. */
  function RecordRow(row: Row, versions: seq<Version>, author: Author, requested: Option<string>): (r: (State, bool)) {
    var p := ContentOf(State(Some(row), versions), row.published);
    var c := Candidate(row, p);
    if p == Some(c) then (State(Some(row), versions), false)
    else
      var v := Version(c, author, requested, true, false, row.published);
      (State(Some(row.(published := Some(|versions|))), versions + [v]), true)
  }

  /** PublishTemplateWrite with the old panel's create or edit; fails is a
      write the database or a check refuses. */
  function PanelWrite(s: State, author: Author, f: Fields, fails: bool): (r: (State, Result<Row, Error>))
    ensures r.1.Err? ==> r.0 == s
  {
    match PanelRow(s, f)
    case None => (s, Err(NotFound))
    case Some(row) =>
      if fails then (s, Err(WriteFailed))
      else
        var (after, _) := RecordRow(row, s.versions, author, None);
        (after, Ok(after.row.value))
  }

  // ---- The Template seed --------------------------------------------------

  datatype Seed = Seed(fields: Fields, author: Author, force: bool, payload: string, at: int, fails: bool)

  /** A version as a conflict names it: its id, and whether it is the one sent. */
  datatype Summary = Summary(id: VersionId, current: bool)

  datatype Conflict = Conflict(
    rules: seq<Rule>,
    published: Option<Summary>,
    lastSeed: Option<Summary>,
    operatorVersions: seq<VersionId>,
    subject: string,
    requestedSubject: string)

  datatype SeedResult =
    | Seeded(row: Row, overrode: Option<Conflict>)
    | SeedRefused(conflict: Conflict)
    | SeedFailed(error: Error)

  /** The last version a Template seed wrote. */
  function LastSeed(versions: seq<Version>): (r: Option<VersionId>)
    ensures r.Some? ==> r.value < |versions| && versions[r.value].author.kind.TemplateSeed?
    ensures forall i | 0 <= i < |versions| && versions[i].author.kind.TemplateSeed? :: r.Some? && i <= r.value
  {
    if versions == [] then None
    else
      var last := |versions| - 1;
      if versions[last].author.kind.TemplateSeed? then Some(last) else LastSeed(versions[..last])
  }

  predicate IsOperatorWork(v: Version) {
    v.author.kind.Operator? && !v.discarded
  }

  /** The operators' versions from an index on, oldest first, discarded drafts
      left out. */
  function OperatorVersions(versions: seq<Version>, from: nat): (r: seq<VersionId>)
    ensures forall id :: id in r <==> from <= id < |versions| && IsOperatorWork(versions[id])
    ensures forall i, j | 0 <= i < j < |r| :: r[i] < r[j]
  {
    if |versions| <= from then []
    else
      var last := |versions| - 1;
      var before := OperatorVersions(versions[..last], from);
      assert forall i | 0 <= i < |before| :: before[i] in before;
      before + (if IsOperatorWork(versions[last]) then [last] else [])
  }

  function AfterSeed(lastSeed: Option<VersionId>): (r: nat) {
    if lastSeed.Some? then lastSeed.value + 1 else 0
  }

  predicate KeptAnOperatorsSubject(lastSeed: Option<Version>, sent: string, requested: string) {
    lastSeed.Some? && sent != requested
    && (lastSeed.value.requested == None || lastSeed.value.requested != Some(sent))
  }

  function Rules(s: State, row: Row, requested: string): (r: seq<Rule>) {
    var last := LastSeed(s.versions);
    var work := OperatorVersions(s.versions, AfterSeed(last));
    (if row.published != last then [PublishedByOperator] else [])
    + (if work != [] then [NewerOperatorVersion] else [])
    + (if KeptAnOperatorsSubject(if last.Some? then Some(s.versions[last.value]) else None, row.subject, requested)
       then [OperatorSubject] else [])
  }

  function Summarized(row: Row, id: Option<VersionId>): (r: Option<Summary>) {
    if id.Some? then Some(Summary(id.value, row.published == id)) else None
  }

  function SeedConflict(s: State, row: Row, requested: string): (r: Option<Conflict>) {
    var last := LastSeed(s.versions);
    var rules := Rules(s, row, requested);
    if rules == [] then None
    else Some(Conflict(rules, Summarized(row, row.published), Summarized(row, last),
                       OperatorVersions(s.versions, AfterSeed(last)), row.subject, requested))
  }

  /** The versions a conflict names, read again in a later state. */
  function Reread(c: Conflict, after: State, row: Row): (r: Conflict) {
    c.(published := if c.published.Some? then Summarized(row, Some(c.published.value.id)) else None,
       lastSeed := if c.lastSeed.Some? then Summarized(row, Some(c.lastSeed.value.id)) else None,
       operatorVersions := OperatorVersions(after.versions,
         AfterSeed(if c.lastSeed.Some? then Some(c.lastSeed.value.id) else None)))
  }

  /** RecordSeedRefusal: the same payload refused again keeps when it first was. */
  function Refused(row: Row, rules: seq<Rule>, payload: string, now: int): (r: Row) {
    var since := if row.refusal.Some? && row.refusal.value.payload == payload then row.refusal.value.since else now;
    row.(refusal := Some(Refusal(since, rules, payload)))
  }

  function SeedTemplate(s: State, seed: Seed): (r: (State, SeedResult)) {
    var conflict := if s.row.Some? then SeedConflict(s, s.row.value, seed.fields.subject) else None;
    if seed.fails then (s, SeedFailed(WriteFailed))
    else
      var (after, recorded) := RecordRow(UpsertedRow(s, seed.fields), s.versions, seed.author,
          Some(seed.fields.subject));
      var row := after.row.value;
      if !recorded || conflict == None then (after, Seeded(row, None))
      else if !seed.force then
        (s.(row := Some(Refused(s.row.value, conflict.value.rules, seed.payload, seed.at))),
            SeedRefused(conflict.value))
      else (after, Seeded(row, Some(Reread(conflict.value, after, row))))
  }

  // ---- Runs ---------------------------------------------------------------

  datatype Op =
    | OpSave(author: Author, base: Option<VersionId>, content: Content, check: Check)
    | OpRestore(author: Author, id: VersionId, check: Check)
    | OpPublish(id: VersionId, over: Option<VersionId>, check: Check)
    | OpDiscard(id: VersionId)
    | OpPanel(author: Author, fields: Fields, fails: bool)
    | OpSeed(seed: Seed)
    | OpArchive
    | OpUnarchive
    | OpErase(sub: string)

  /** Operators use the panel and the editor; the Template seed only seeds. */
  predicate IsCall(op: Op) {
    match op
    case OpPanel(author, _, _) => author.kind.Operator?
    case OpSeed(seed) => seed.author.kind.TemplateSeed?
    case _ => true
  }

  /** What erasing an account leaves of who wrote a version. */
  function Unsigned(v: Version, sub: string): (r: Version) {
    if v.author.sub == Some(sub) then
      v.(author := Author(v.author.kind, Some(Erasure.DELETED_SUBJECT), Some(Erasure.DELETED_NAME)))
    else v
  }

  function Resigned(versions: seq<Version>, sub: string): (r: seq<Version>)
    ensures |r| == |versions|
    ensures forall i | 0 <= i < |r| :: r[i] == Unsigned(versions[i], sub)
  {
    seq(|versions|, i requires 0 <= i < |versions| => Unsigned(versions[i], sub))
  }

  function Step(s: State, op: Op): (r: State) {
    match op
    case OpSave(author, base, content, check) => SaveDraft(s, author, base, content, check).0
    case OpRestore(author, id, check) => Restore(s, author, id, check).0
    case OpPublish(id, over, check) => Publish(s, id, over, check).0
    case OpDiscard(id) => Discard(s, id).0
    case OpPanel(author, fields, fails) => PanelWrite(s, author, fields, fails).0
    case OpSeed(seed) => SeedTemplate(s, seed).0
    case OpArchive => if s.row.Some? then s.(row := Some(s.row.value.(archived := true))) else s
    case OpUnarchive => if s.row.Some? then s.(row := Some(s.row.value.(archived := false))) else s
    case OpErase(sub) => s.(versions := Resigned(s.versions, sub))
  }

  function Run(s: State, ops: seq<Op>): (r: State) {
    if ops == [] then s else Step(Run(s, ops[..|ops| - 1]), ops[|ops| - 1])
  }

  predicate IsRun(ops: seq<Op>) {
    forall i | 0 <= i < |ops| :: IsCall(ops[i])
  }

  /** Where a history starts: no row yet, or a row written before versions
      were kept and not versioned since. */
  predicate Initial(s: State) {
    s.versions == [] && (s.row.Some? ==> s.row.value.published == None)
  }
}
