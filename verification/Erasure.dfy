// Account erasure: the tables it touches, what it looks for, and the ordered
// statements that take a person out of them.
module Erasure {
  import opened Options
  import opened Text

  const DELETED_SUBJECT := "00000000-0000-4000-8000-000000000000"
  const DELETED_NAME := "Silinmi\U{c5}\U{9f} kullan\U{c4}\U{b1}c\U{c4}\U{b1}"
  const DELETED_EMAIL := "silinmis-kullanici@invalid"
  const ERASED_NOTE := "[silindi]"
  const NO_VARIABLES := "{}"

  // ---- The tables ----------------------------------------------------------

  type Id = nat

  datatype Status = Pending | Processing | Sent | Failed

  datatype Person = Person(email: string, name: string)

  datatype QueueRow = QueueRow(
    task: Id,
    name: string,
    email: string,
    sub: Option<string>,
    subject: string,
    body: string,
    html: Option<string>,
    status: Option<Status>,
    error: Option<string>,
    token: Option<string>,
    tokenClosed: bool,
    unsubscribeUrl: Option<string>,
    sourceRef: Option<string>)

  datatype Task = Task(sentBy: string, variables: string)

  datatype Link = Link(task: Id, url: Option<string>, erased: bool)

  datatype Approval = Approval(
    submitter: string,
    submitterName: Option<string>,
    submitterEmail: Option<string>,
    emailUnverified: bool,
    variables: string,
    list: Option<Id>,
    source: Option<Id>)

  datatype ApprovalEvent = ApprovalEvent(
    rejected: bool,
    actor: Option<string>,
    actorName: Option<string>,
    note: Option<string>,
    changes: Option<string>)

  datatype FormSource = FormSource(owner: string, title: string, invalidated: bool, recipientCount: nat)

  datatype Actor = Actor(sub: Option<string>, name: Option<string>)

  datatype Suppression = Suppression(sub: Option<string>, lastQueue: Option<Id>)

  datatype Reactivation = Reactivation(actor: Option<string>, reason: Option<string>)

  datatype InboxItem = InboxItem(user: string, title: string, summary: string, link: Option<string>)

  /** The tables by primary key. People and sends of a request, and people of
      a Forms source, are keyed by it and their position; a membership, by its
      own key, names a list and a recipient; a tracking event names its mail. */
  datatype Tables = Tables(
    recipients: map<Id, Person>,
    memberships: map<Id, (Id, Id)>,
    queue: map<Id, QueueRow>,
    tasks: map<Id, Task>,
    links: map<Id, Link>,
    events: map<Id, Id>,
    approvals: map<Id, Approval>,
    people: map<(Id, nat), Person>,
    sends: map<(Id, nat), Id>,
    approvalEvents: map<Id, ApprovalEvent>,
    sources: map<Id, FormSource>,
    sourcePeople: map<(Id, nat), Person>,
    versions: map<Id, Actor>,
    sensitiveChanges: map<Id, Actor>,
    contentViews: map<Id, Actor>,
    suppressions: map<string, Suppression>,
    removals: map<Id, string>,
    unsubscribes: set<(string, string)>,
    reactivations: map<Id, Reactivation>,
    inbox: map<Id, InboxItem>,
    templateArchivers: map<Id, Option<string>>,
    listArchivers: map<Id, Option<string>>)

  // ---- What the database refuses -------------------------------------------

  /** A News record's mail is in the queue once for each address. */
  predicate NewsOnce(t: Tables) {
    forall j, k | j in t.queue && k in t.queue && IsSameNews(t.queue[j], t.queue[k]) :: j == k
  }

  predicate IsSameNews(q: QueueRow, r: QueueRow) {
    q.sourceRef.Some? && q.sourceRef == r.sourceRef && Lower(q.email) == Lower(r.email)
  }

  /** An address is in a request once. */
  predicate OncePerRequest(t: Tables) {
    forall j, k | j in t.people && k in t.people && j.0 == k.0
        && Lower(t.people[j].email) == Lower(t.people[k].email) :: j == k
  }

  predicate HasPeople(t: Tables, approval: Id) {
    exists k | k in t.people :: k.0 == approval
  }

  /** A request goes to a list or to at least one person, never both; one made
      from a Forms source goes to neither, and its submitter owns the source. */
  predicate OneAudience(t: Tables) {
    forall a | a in t.approvals ::
      match t.approvals[a].source
      case None => t.approvals[a].list.Some? != HasPeople(t, a)
      case Some(s) =>
        t.approvals[a].list.None? && !HasPeople(t, a) && s in t.sources
            && t.sources[s].owner == t.approvals[a].submitter
  }

  function PeopleOfSource(t: Tables, source: Id): (r: set<(Id, nat)>) {
    set k | k in t.sourcePeople && k.0 == source
  }

  /** A source's snapshot is whole until the source is invalidated. */
  predicate SnapshotsHold(t: Tables) {
    forall s | s in t.sources && !t.sources[s].invalidated :: |PeopleOfSource(t, s)| == t.sources[s].recipientCount
  }

  /** What the deferred triggers ask of the tables when a transaction commits. */
  predicate CanCommit(t: Tables) {
    OneAudience(t) && SnapshotsHold(t)
  }

  // ---- What is looked for --------------------------------------------------

  datatype Command = Command(request: Id, subject: string, emails: seq<string>)

  /** The person: the subject, the addresses lower-cased, and what free text is
      searched for. */
  datatype Look = Look(subject: string, emails: set<string>, needles: set<string>)

  function Emails(c: Command): (r: set<string>) {
    set x | x in c.emails && Btrim(x) != "" :: Lower(Btrim(x))
  }

  /** White space inside a name collapsed to one blank. */
  function Collapsed(s: string): (r: string) {
    if s == "" then ""
    else if IsBlank(s[0]) then
      if |s| > 1 && IsBlank(s[1]) then Collapsed(s[1..]) else " " + Collapsed(s[1..])
    else [s[0]] + Collapsed(s[1..])
  }

  function FullName(name: string): (r: string) {
    Lower(Btrim(Collapsed(name)))
  }

  /** A name of one word is not searched for, and neither is the stand-in's. */
  predicate IsSearchable(name: string) {
    ' ' in name && name != Lower(DELETED_NAME)
  }

  predicate ToPerson(subject: string, emails: set<string>, q: QueueRow) {
    Lower(q.email) in emails || q.sub == Some(subject)
  }

  /** The names held for the person: on their addresses' rows and mail, and on
      the rows they are the actor of. */
  predicate IsHeld(t: Tables, subject: string, emails: set<string>, name: string) {
    || (exists k | k in t.queue :: t.queue[k].name == name && ToPerson(subject, emails, t.queue[k]))
    || IsHeldElsewhere(t, subject, emails, name)
  }

  predicate IsHeldElsewhere(t: Tables, subject: string, emails: set<string>, name: string) {
    || (exists k | k in t.recipients :: NamesPerson(t.recipients[k], emails, name))
    || (exists k | k in t.people :: NamesPerson(t.people[k], emails, name))
    || (exists k | k in t.sourcePeople :: NamesPerson(t.sourcePeople[k], emails, name))
    || (exists k | k in t.approvals ::
       t.approvals[k].submitter == subject && t.approvals[k].submitterName == Some(name))
    || (exists k | k in t.approvalEvents ::
          t.approvalEvents[k].actor == Some(subject) && t.approvalEvents[k].actorName == Some(name))
    || (exists k | k in t.versions :: t.versions[k] == Actor(Some(subject), Some(name)))
    || (exists k | k in t.sensitiveChanges :: t.sensitiveChanges[k] == Actor(Some(subject), Some(name)))
    || (exists k | k in t.contentViews :: t.contentViews[k] == Actor(Some(subject), Some(name)))
  }

  predicate NamesPerson(p: Person, emails: set<string>, name: string) {
    p.name == name && Lower(p.email) in emails
  }

  /** Every name the tables hold of anyone: where held names are found. */
  function AllNames(t: Tables): (r: set<string>) {
    (set k | k in t.queue :: t.queue[k].name)
    + (set k | k in t.recipients :: t.recipients[k].name)
    + (set k | k in t.people :: t.people[k].name)
    + (set k | k in t.sourcePeople :: t.sourcePeople[k].name)
    + (set k | k in t.approvals && t.approvals[k].submitterName.Some? :: t.approvals[k].submitterName.value)
    + (set k | k in t.approvalEvents && t.approvalEvents[k].actorName.Some? :: t.approvalEvents[k].actorName.value)
    + (set k | k in t.versions && t.versions[k].name.Some? :: t.versions[k].name.value)
    + (set k | k in t.sensitiveChanges && t.sensitiveChanges[k].name.Some? :: t.sensitiveChanges[k].name.value)
    + (set k | k in t.contentViews && t.contentViews[k].name.Some? :: t.contentViews[k].name.value)
  }

  function Needles(t: Tables, subject: string, emails: set<string>): (r: set<string>) {
    emails
    + set name | name in AllNames(t) && IsHeld(t, subject, emails, name) && IsSearchable(FullName(name)) ::
        FullName(name)
  }

  function LookOf(t: Tables, c: Command): (l: Look) {
    Look(c.subject, Emails(c), Needles(t, c.subject, Emails(c)))
  }

  predicate Names(l: Look, text: string) {
    exists needle | needle in l.needles :: Contains(Lower(text), needle)
  }

  function OrEmpty(o: Option<string>): (r: string) {
    if o.Some? then o.value else ""
  }

  predicate MailNames(l: Look, q: QueueRow) {
    Names(l, q.subject) || Names(l, q.body) || Names(l, OrEmpty(q.html))
  }

  predicate Theirs(l: Look, q: QueueRow) {
    ToPerson(l.subject, l.emails, q)
  }

  predicate IsFinal(q: QueueRow) {
    q.status == Some(Sent) || q.status == Some(Failed)
  }

  predicate IsWaiting(q: QueueRow) {
    q.status == None || q.status == Some(Pending)
  }

  /** A send that went to the person and to no one else. */
  predicate Alone(t: Tables, l: Look, task: Id) {
    (exists k | k in t.queue :: t.queue[k].task == task)
    && forall k | k in t.queue && t.queue[k].task == task :: Theirs(l, t.queue[k])
  }

  /** Whether a link holds a needle, as written or unescaped. */
  predicate LinkNames(url: string, needles: set<string>) {
    exists needle | needle in needles && needle != "" ::
      || Contains(Lower(url), Lower(needle))
      || (Unescape(url, true).Some? && Contains(Lower(Unescape(url, true).value), Lower(needle)))
      || (Unescape(url, false).Some? && Contains(Lower(Unescape(url, false).value), Lower(needle)))
  }

  // ---- The statements ------------------------------------------------------

  datatype CountKey =
    | RecipientsDeleted | MembershipsDeleted | QueueRowsDeleted | QueueRowsCleared | BodiesCleared
    | VariablesCleared | ActorsReplaced | NotesCleared | ChangesCleared | PeopleRemoved | Placeholders
    | SendLinksDeleted | EventsDeleted | LinksCleared | SuppressionsDeleted | UnsubscribesDeleted
    | InboxDeleted | InboxNamingDeleted | SourcesInvalidated | SourcePeopleRemoved

  type Counts = map<CountKey, nat>

  datatype Step =
    | InvalidateSources | CloseTokens | ClearLinks | DropEvents | SendVariables | ApprovalVariables
    | OwnInbox | NamingInbox | QueuedRows | NamingBodies | ApprovalChanges | ApprovalNotes | Reasons
    | Senders | TemplateArchivers | ListArchivers
    | SourceOwners | SourceTitles | SourcePeople | Removers | Reactivators | ApprovalActors | Submitters
    | Authors | SensitiveActors | ViewActors | StandIns | SendLinks | ApprovalPeople
    | Suppressions | Unsubscribes | OwnMail | Memberships | Recipients

  /** What is done before the mailer is asked, and what is done last. */
  const FIRST_STEPS: seq<Step> :=
    [InvalidateSources, CloseTokens, ClearLinks, DropEvents, SendVariables, ApprovalVariables, OwnInbox, NamingInbox,
     QueuedRows, NamingBodies, ApprovalChanges, ApprovalNotes, Reasons, Senders, TemplateArchivers, ListArchivers]

  const LAST_STEPS: seq<Step> :=
    [SourceOwners, SourceTitles, SourcePeople, Removers, Reactivators, ApprovalActors, Submitters, Authors,
     SensitiveActors, ViewActors, StandIns, SendLinks, ApprovalPeople, Suppressions, Unsubscribes, OwnMail,
     Memberships, Recipients]

  // Which rows a statement changes.

  predicate SourceConcerns(t: Tables, l: Look, id: Id, s: FormSource) {
    s.owner == l.subject || Names(l, s.title)
    || exists k | k in t.sourcePeople :: k.0 == id && Lower(t.sourcePeople[k].email) in l.emails
  }

  predicate HitsLink(t: Tables, l: Look, link: Link) {
    link.url.Some? && (Alone(t, l, link.task) || LinkNames(link.url.value, l.needles))
  }

  predicate HitsEvent(t: Tables, l: Look, mail: Id) {
    mail in t.queue && Theirs(l, t.queue[mail])
  }

  predicate HitsVariables(t: Tables, l: Look, id: Id, task: Task) {
    task.variables != NO_VARIABLES && (Names(l, task.variables) || Alone(t, l, id))
  }

  predicate HitsItem(l: Look, i: InboxItem) {
    Names(l, i.title) || Names(l, i.summary) || Names(l, OrEmpty(i.link))
  }

  predicate HitsBody(l: Look, q: QueueRow) {
    IsFinal(q) && !Theirs(l, q) && MailNames(l, q)
  }

  predicate HitsNote(l: Look, e: ApprovalEvent) {
    e.note.Some? && !(e.rejected && e.note.value == ERASED_NOTE)
    && (e.actor == Some(l.subject) || Names(l, e.note.value))
  }

  predicate HitsReason(l: Look, r: Reactivation) {
    r.reason.Some? && r.reason.value != ERASED_NOTE && Names(l, r.reason.value)
  }

  predicate HitsSuppression(t: Tables, l: Look, address: string, s: Suppression) {
    address in l.emails || s.sub == Some(l.subject)
    || (s.lastQueue.Some? && s.lastQueue.value in t.queue && Theirs(l, t.queue[s.lastQueue.value]))
  }

  predicate HitsMembership(t: Tables, l: Look, recipient: Id) {
    recipient in t.recipients && Lower(t.recipients[recipient].email) in l.emails
  }

  predicate HitsSend(t: Tables, l: Look, k: (Id, nat)) {
    k in t.people && Lower(t.people[k].email) in l.emails
  }

  /** A person of a request whose send was queued, and who can be stood in for:
      the request has no stand-in yet. */
  predicate CanStandIn(t: Tables, l: Look, k: (Id, nat)) {
    k in t.people && k in t.sends && Lower(t.people[k].email) in l.emails
    && forall o | o in t.people && o.0 == k.0 :: Lower(t.people[o].email) != DELETED_EMAIL
  }

  /** The first such person of each request. */
  predicate HitsStandIn(t: Tables, l: Look, k: (Id, nat)) {
    CanStandIn(t, l, k) && forall o | o in t.people && o.0 == k.0 && o.1 < k.1 :: !CanStandIn(t, l, o)
  }

  /** The requests a deletion of the person's rows leaves with no one: one
      stand-in is put in. */
  function Emptied(t: Tables, l: Look): (r: set<(Id, nat)>) {
    set k | k in t.people && Lower(t.people[k].email) in l.emails && k.0 in t.approvals
            && t.approvals[k.0].list == None && IsEmptied(t, l, k.0) :: (k.0, 1)
  }

  predicate IsEmptied(t: Tables, l: Look, approval: Id) {
    forall o | o in t.people && o.0 == approval :: Lower(t.people[o].email) in l.emails
  }

  function Replaced(l: Look, a: Actor): (r: Actor) {
    if a.sub == Some(l.subject) then Actor(Some(DELETED_SUBJECT), Some(DELETED_NAME)) else a
  }

  function ReplacedSub(l: Look, sub: Option<string>): (r: Option<string>) {
    if sub == Some(l.subject) then Some(DELETED_SUBJECT) else sub
  }

  function Cleared(q: QueueRow): (r: QueueRow) {
    q.(name := DELETED_NAME, email := "", subject := "", body := "", html := None, error := None, sub := None,
       unsubscribeUrl := None)
  }

  // What each statement leaves of each table.

  function RecipientsAfter(step: Step, t: Tables, l: Look): (r: map<Id, Person>) {
    match step
    case Recipients =>
      map k | k in t.recipients && Lower(t.recipients[k].email) !in l.emails :: t.recipients[k]
    case _ => t.recipients
  }

  function MembershipsAfter(step: Step, t: Tables, l: Look): (r: map<Id, (Id, Id)>) {
    match step
    case Memberships =>
      map k | k in t.memberships && !HitsMembership(t, l, t.memberships[k].1) :: t.memberships[k]
    case _ => t.memberships
  }

  function QueueAfter(step: Step, t: Tables, l: Look): (r: map<Id, QueueRow>) {
    match step
    case CloseTokens =>
      map k | k in t.queue ::
        if t.queue[k].token.Some? && Theirs(l, t.queue[k])
        then t.queue[k].(token := None, tokenClosed := true) else t.queue[k]
    case QueuedRows =>
      map k | k in t.queue && !(Theirs(l, t.queue[k]) && IsWaiting(t.queue[k])) :: t.queue[k]
    case NamingBodies =>
      map k | k in t.queue ::
        if HitsBody(l, t.queue[k]) then t.queue[k].(subject := "", body := "", html := None) else t.queue[k]
    case OwnMail =>
      map k | k in t.queue ::
        if IsFinal(t.queue[k]) && Theirs(l, t.queue[k]) then Cleared(t.queue[k]) else t.queue[k]
    case _ => t.queue
  }

  function TasksAfter(step: Step, t: Tables, l: Look): (r: map<Id, Task>) {
    match step
    case SendVariables =>
      map k | k in t.tasks ::
        if HitsVariables(t, l, k, t.tasks[k]) then t.tasks[k].(variables := NO_VARIABLES) else t.tasks[k]
    case Senders =>
      map k | k in t.tasks ::
        if t.tasks[k].sentBy == l.subject then t.tasks[k].(sentBy := DELETED_SUBJECT) else t.tasks[k]
    case _ => t.tasks
  }

  function LinksAfter(step: Step, t: Tables, l: Look): (r: map<Id, Link>) {
    match step
    case ClearLinks =>
      map k | k in t.links ::
        if HitsLink(t, l, t.links[k]) then t.links[k].(url := None, erased := true) else t.links[k]
    case _ => t.links
  }

  function EventsAfter(step: Step, t: Tables, l: Look): (r: map<Id, Id>) {
    match step
    case DropEvents =>
      map k | k in t.events && !HitsEvent(t, l, t.events[k]) :: t.events[k]
    case _ => t.events
  }

  function ApprovalsAfter(step: Step, t: Tables, l: Look): (r: map<Id, Approval>) {
    match step
    case ApprovalVariables =>
      map k | k in t.approvals ::
        if t.approvals[k].variables != NO_VARIABLES && Names(l, t.approvals[k].variables)
        then t.approvals[k].(variables := NO_VARIABLES) else t.approvals[k]
    case Submitters =>
      map k | k in t.approvals ::
        if t.approvals[k].submitter == l.subject
        then t.approvals[k].(submitter := DELETED_SUBJECT, submitterName := Some(DELETED_NAME), submitterEmail := None,
                             emailUnverified := false)
        else t.approvals[k]
    case _ => t.approvals
  }

  function PeopleAfter(step: Step, t: Tables, l: Look): (r: map<(Id, nat), Person>) {
    match step
    case StandIns =>
      map k | k in t.people ::
        if HitsStandIn(t, l, k) then Person(DELETED_EMAIL, DELETED_NAME) else t.people[k]
    case ApprovalPeople =>
      (map k | k in t.people && Lower(t.people[k].email) !in l.emails :: t.people[k])
      + (map k | k in Emptied(t, l) :: Person(DELETED_EMAIL, DELETED_NAME))
    case _ => t.people
  }

  function SendsAfter(step: Step, t: Tables, l: Look): (r: map<(Id, nat), Id>) {
    match step
    case SendLinks =>
      map k | k in t.sends && !HitsSend(t, l, k) :: t.sends[k]
    case _ => t.sends
  }

  function ApprovalEventsAfter(step: Step, t: Tables, l: Look): (r: map<Id, ApprovalEvent>) {
    match step
    case ApprovalChanges =>
      map k | k in t.approvalEvents ::
        if t.approvalEvents[k].changes.Some? && Names(l, t.approvalEvents[k].changes.value)
        then t.approvalEvents[k].(changes := None) else t.approvalEvents[k]
    case ApprovalNotes =>
      map k | k in t.approvalEvents ::
        if HitsNote(l, t.approvalEvents[k])
        then t.approvalEvents[k].(note := if t.approvalEvents[k].rejected then Some(ERASED_NOTE) else None)
        else t.approvalEvents[k]
    case ApprovalActors =>
      map k | k in t.approvalEvents ::
        if t.approvalEvents[k].actor == Some(l.subject)
        then t.approvalEvents[k].(actor := Some(DELETED_SUBJECT), actorName := Some(DELETED_NAME))
        else t.approvalEvents[k]
    case _ => t.approvalEvents
  }

  function SourcesAfter(step: Step, t: Tables, l: Look): (r: map<Id, FormSource>) {
    match step
    case InvalidateSources =>
      map k | k in t.sources ::
        if SourceConcerns(t, l, k, t.sources[k]) then t.sources[k].(invalidated := true) else t.sources[k]
    case SourceOwners =>
      map k | k in t.sources ::
        if t.sources[k].owner == l.subject then t.sources[k].(owner := DELETED_SUBJECT) else t.sources[k]
    case SourceTitles =>
      map k | k in t.sources ::
        if Names(l, t.sources[k].title) then t.sources[k].(title := ERASED_NOTE) else t.sources[k]
    case _ => t.sources
  }

  function SourcePeopleAfter(step: Step, t: Tables, l: Look): (r: map<(Id, nat), Person>) {
    match step
    case SourcePeople =>
      map k | k in t.sourcePeople && Lower(t.sourcePeople[k].email) !in l.emails :: t.sourcePeople[k]
    case _ => t.sourcePeople
  }

  function VersionsAfter(step: Step, t: Tables, l: Look): (r: map<Id, Actor>) {
    match step
    case Authors =>
      map k | k in t.versions :: Replaced(l, t.versions[k])
    case _ => t.versions
  }

  function SensitiveChangesAfter(step: Step, t: Tables, l: Look): (r: map<Id, Actor>) {
    match step
    case SensitiveActors =>
      map k | k in t.sensitiveChanges :: Replaced(l, t.sensitiveChanges[k])
    case _ => t.sensitiveChanges
  }

  function ContentViewsAfter(step: Step, t: Tables, l: Look): (r: map<Id, Actor>) {
    match step
    case ViewActors =>
      map k | k in t.contentViews :: Replaced(l, t.contentViews[k])
    case _ => t.contentViews
  }

  function SuppressionsAfter(step: Step, t: Tables, l: Look): (r: map<string, Suppression>) {
    match step
    case QueuedRows =>
      // A suppression loses its reference to a deleted row.
      map a | a in t.suppressions ::
        if t.suppressions[a].lastQueue.Some? && t.suppressions[a].lastQueue.value in t.queue
           && Theirs(l, t.queue[t.suppressions[a].lastQueue.value])
              && IsWaiting(t.queue[t.suppressions[a].lastQueue.value])
        then t.suppressions[a].(lastQueue := None) else t.suppressions[a]
    case Suppressions =>
      map a | a in t.suppressions && !HitsSuppression(t, l, a, t.suppressions[a]) :: t.suppressions[a]
    case _ => t.suppressions
  }

  function RemovalsAfter(step: Step, t: Tables, l: Look): (r: map<Id, string>) {
    match step
    case Removers =>
      map k | k in t.removals :: if t.removals[k] == l.subject then DELETED_SUBJECT else t.removals[k]
    case _ => t.removals
  }

  function UnsubscribesAfter(step: Step, t: Tables, l: Look): (r: set<(string, string)>) {
    match step
    case Unsubscribes =>
      set u | u in t.unsubscribes && u.0 !in l.emails
    case _ => t.unsubscribes
  }

  function ReactivationsAfter(step: Step, t: Tables, l: Look): (r: map<Id, Reactivation>) {
    match step
    case Reasons =>
      map k | k in t.reactivations ::
        if HitsReason(l, t.reactivations[k])
        then t.reactivations[k].(reason := Some(ERASED_NOTE)) else t.reactivations[k]
    case Reactivators =>
      map k | k in t.reactivations :: t.reactivations[k].(actor := ReplacedSub(l, t.reactivations[k].actor))
    case _ => t.reactivations
  }

  function InboxAfter(step: Step, t: Tables, l: Look): (r: map<Id, InboxItem>) {
    match step
    case OwnInbox =>
      map k | k in t.inbox && t.inbox[k].user != l.subject :: t.inbox[k]
    case NamingInbox =>
      map k | k in t.inbox && !HitsItem(l, t.inbox[k]) :: t.inbox[k]
    case _ => t.inbox
  }

  function TemplateArchiversAfter(step: Step, t: Tables, l: Look): (r: map<Id, Option<string>>) {
    match step
    case TemplateArchivers =>
      map k | k in t.templateArchivers :: ReplacedSub(l, t.templateArchivers[k])
    case _ => t.templateArchivers
  }

  function ListArchiversAfter(step: Step, t: Tables, l: Look): (r: map<Id, Option<string>>) {
    match step
    case ListArchivers =>
      map k | k in t.listArchivers :: ReplacedSub(l, t.listArchivers[k])
    case _ => t.listArchivers
  }

  /** What a statement leaves of the tables. */
  function Do(step: Step, t: Tables, l: Look): (r: Tables) {
    Tables(
      RecipientsAfter(step, t, l),
      MembershipsAfter(step, t, l),
      QueueAfter(step, t, l),
      TasksAfter(step, t, l),
      LinksAfter(step, t, l),
      EventsAfter(step, t, l),
      ApprovalsAfter(step, t, l),
      PeopleAfter(step, t, l),
      SendsAfter(step, t, l),
      ApprovalEventsAfter(step, t, l),
      SourcesAfter(step, t, l),
      SourcePeopleAfter(step, t, l),
      VersionsAfter(step, t, l),
      SensitiveChangesAfter(step, t, l),
      ContentViewsAfter(step, t, l),
      SuppressionsAfter(step, t, l),
      RemovalsAfter(step, t, l),
      UnsubscribesAfter(step, t, l),
      ReactivationsAfter(step, t, l),
      InboxAfter(step, t, l),
      TemplateArchiversAfter(step, t, l),
      ListArchiversAfter(step, t, l))
  }

  lemma LinksOnly(t: Tables, l: Look)
    ensures Do(ClearLinks, t, l) == t.(links := LinksAfter(ClearLinks, t, l))
  {
  }

  /** How many rows a statement changes. */
  function Rows(step: Step, t: Tables, l: Look): (n: nat) {
    match step
    case InvalidateSources =>
      |set k | k in t.sources && SourceConcerns(t, l, k, t.sources[k]) && !t.sources[k].invalidated|
    case CloseTokens => |set k | k in t.queue && t.queue[k].token.Some? && Theirs(l, t.queue[k])|
    case ClearLinks => |set k | k in t.links && HitsLink(t, l, t.links[k])|
    case DropEvents => |set k | k in t.events && HitsEvent(t, l, t.events[k])|
    case SendVariables => |set k | k in t.tasks && HitsVariables(t, l, k, t.tasks[k])|
    case ApprovalVariables =>
      |set k | k in t.approvals && t.approvals[k].variables != NO_VARIABLES && Names(l, t.approvals[k].variables)|
    case OwnInbox => |set k | k in t.inbox && t.inbox[k].user == l.subject|
    case NamingInbox => |set k | k in t.inbox && HitsItem(l, t.inbox[k])|
    case QueuedRows => |set k | k in t.queue && Theirs(l, t.queue[k]) && IsWaiting(t.queue[k])|
    case NamingBodies => |set k | k in t.queue && HitsBody(l, t.queue[k])|
    case ApprovalChanges =>
      |set k | k in t.approvalEvents && t.approvalEvents[k].changes.Some?
          && Names(l, t.approvalEvents[k].changes.value)|
    case ApprovalNotes => |set k | k in t.approvalEvents && HitsNote(l, t.approvalEvents[k])|
    case Reasons => |set k | k in t.reactivations && HitsReason(l, t.reactivations[k])|
    case Senders => |set k | k in t.tasks && t.tasks[k].sentBy == l.subject|
    case TemplateArchivers => |set k | k in t.templateArchivers && t.templateArchivers[k] == Some(l.subject)|
    case ListArchivers => |set k | k in t.listArchivers && t.listArchivers[k] == Some(l.subject)|
    case SourceOwners => |set k | k in t.sources && t.sources[k].owner == l.subject|
    case SourceTitles => |set k | k in t.sources && Names(l, t.sources[k].title)|
    case SourcePeople => |set k | k in t.sourcePeople && Lower(t.sourcePeople[k].email) in l.emails|
    case Removers => |set k | k in t.removals && t.removals[k] == l.subject|
    case Reactivators => |set k | k in t.reactivations && t.reactivations[k].actor == Some(l.subject)|
    case ApprovalActors => |set k | k in t.approvalEvents && t.approvalEvents[k].actor == Some(l.subject)|
    case Submitters => |set k | k in t.approvals && t.approvals[k].submitter == l.subject|
    case Authors => |set k | k in t.versions && t.versions[k].sub == Some(l.subject)|
    case SensitiveActors => |set k | k in t.sensitiveChanges && t.sensitiveChanges[k].sub == Some(l.subject)|
    case ViewActors => |set k | k in t.contentViews && t.contentViews[k].sub == Some(l.subject)|
    case StandIns => |set k | k in t.people && HitsStandIn(t, l, k)|
    case SendLinks => |set k | k in t.sends && HitsSend(t, l, k)|
    case ApprovalPeople => |set k | k in t.people && Lower(t.people[k].email) in l.emails|
    case Suppressions => |set a | a in t.suppressions && HitsSuppression(t, l, a, t.suppressions[a])|
    case Unsubscribes => |set u | u in t.unsubscribes && u.0 in l.emails|
    case OwnMail => |set k | k in t.queue && IsFinal(t.queue[k]) && Theirs(l, t.queue[k])|
    case Memberships => |set k | k in t.memberships && HitsMembership(t, l, t.memberships[k].1)|
    case Recipients => |set k | k in t.recipients && Lower(t.recipients[k].email) in l.emails|
  }

  /** What a statement's rows are counted as. */
  function CountOf(step: Step): (key: Option<CountKey>) {
    match step
    case InvalidateSources => Some(SourcesInvalidated)
    case CloseTokens => None
    case ClearLinks => Some(LinksCleared)
    case DropEvents => Some(EventsDeleted)
    case SendVariables => Some(VariablesCleared)
    case ApprovalVariables => Some(VariablesCleared)
    case OwnInbox => Some(InboxDeleted)
    case NamingInbox => Some(InboxNamingDeleted)
    case QueuedRows => Some(QueueRowsDeleted)
    case NamingBodies => Some(BodiesCleared)
    case ApprovalChanges => Some(ChangesCleared)
    case ApprovalNotes => Some(NotesCleared)
    case Reasons => Some(NotesCleared)
    case SourceTitles => None
    case SourcePeople => Some(SourcePeopleRemoved)
    case StandIns => Some(PeopleRemoved)
    case SendLinks => Some(SendLinksDeleted)
    case ApprovalPeople => Some(PeopleRemoved)
    case Suppressions => Some(SuppressionsDeleted)
    case Unsubscribes => Some(UnsubscribesDeleted)
    case OwnMail => Some(QueueRowsCleared)
    case Memberships => Some(MembershipsDeleted)
    case Recipients => Some(RecipientsDeleted)
    case _ => Some(ActorsReplaced)
  }

  /** The stand-ins a statement puts in. */
  function StoodIn(step: Step, t: Tables, l: Look): (n: nat) {
    match step
    case StandIns => Rows(StandIns, t, l)
    case ApprovalPeople => |Emptied(t, l)|
    case _ => 0
  }

  function Get(counts: Counts, key: CountKey): (n: nat) {
    if key in counts then counts[key] else 0
  }

  function WithMore(counts: Counts, key: CountKey, n: nat): (r: Counts) {
    counts[key := Get(counts, key) + n]
  }

  function Counted(step: Step, t: Tables, l: Look, counts: Counts): (r: Counts) {
    var c := if CountOf(step).Some? then WithMore(counts, CountOf(step).value, Rows(step, t, l)) else counts;
    WithMore(c, Placeholders, StoodIn(step, t, l))
  }

  /** A statement that would leave two rows with a key of a unique index is
      refused; only these write a column of one. */
  predicate IsRefused(step: Step, t: Tables, l: Look) {
    match step
    case OwnMail => !NewsOnce(Do(step, t, l))
    case StandIns | ApprovalPeople => !OncePerRequest(Do(step, t, l))
    case _ => false
  }

  /** Whether one of some statements in turn is refused. */
  predicate Refused(steps: seq<Step>, t: Tables, l: Look) {
    steps != [] && (IsRefused(steps[0], t, l) || Refused(steps[1..], Do(steps[0], t, l), l))
  }

  function DoAll(steps: seq<Step>, t: Tables, l: Look): (r: Tables) {
    if steps == [] then t else DoAll(steps[1..], Do(steps[0], t, l), l)
  }

  function CountAll(steps: seq<Step>, t: Tables, l: Look, counts: Counts): (r: Counts) {
    if steps == [] then counts else CountAll(steps[1..], Do(steps[0], t, l), l, Counted(steps[0], t, l, counts))
  }

  /** Mail the erasure must change that is still with the mailer. */
  predicate IsInFlight(l: Look, q: QueueRow) {
    (q.status == Some(Processing) && Theirs(l, q))
    || ((q.status == Some(Pending) || q.status == Some(Processing)) && !Theirs(l, q) && MailNames(l, q))
  }

  predicate MailInFlight(t: Tables, l: Look) {
    exists k | k in t.queue :: IsInFlight(l, t.queue[k])
  }

  // ---- The command ---------------------------------------------------------

  datatype Receipt = Receipt(at: int, counts: Counts)

  datatype Db = Db(tables: Tables, receipts: map<Id, Receipt>)

  datatype Answer = Completed(receipt: Receipt) | InProgress | RolledBack

  /** A transaction's end: everything it did, or nothing. */
  function Commit(before: Db, after: Db, answer: Answer): (r: (Db, Answer)) {
    if CanCommit(after.tables) then (after, answer) else (before, RolledBack)
  }

  function Erase(db: Db, c: Command, at: int): (r: (Db, Answer)) {
    if c.request in db.receipts then (db, Completed(db.receipts[c.request]))
    else
      var l := LookOf(db.tables, c);
      var first := DoAll(FIRST_STEPS, db.tables, l);
      if Refused(FIRST_STEPS, db.tables, l) then (db, RolledBack)
      else if MailInFlight(first, l) then Commit(db, db.(tables := first), InProgress)
      else if Refused(LAST_STEPS, first, l) then (db, RolledBack)
      else
        var receipt := Receipt(at, CountAll(LAST_STEPS, first, l, CountAll(FIRST_STEPS, db.tables, l, map[])));
        Commit(db, Db(DoAll(LAST_STEPS, first, l), db.receipts[c.request := receipt]), Completed(receipt))
  }

  /** One erasure's transaction: the tables as it sees them, and its counts. */
  class Eraser {
    const look: Look
    var tables: Tables
    var counts: Counts

    constructor (t: Tables, c: Command)
      ensures tables == t && counts == map[] && look == LookOf(t, c)
    {
      look := LookOf(t, c);
      tables, counts := t, map[];
    }

    /** Runs one statement and counts the rows it changed, unless the database
        refuses it. */
    method Exec(step: Step) returns (ok: bool)
      modifies this
      ensures ok == !IsRefused(step, old(tables), look)
      ensures tables == if ok then Do(step, old(tables), look) else old(tables)
      ensures counts == if ok then Counted(step, old(tables), look, old(counts)) else old(counts)
    {
      hide Do, Rows, StoodIn, CountOf, IsRefused;
      if IsRefused(step, tables, look) {
        return false;
      }
      var n, placed := Rows(step, tables, look), StoodIn(step, tables, look);
      tables := Do(step, tables, look);
      if CountOf(step).Some? {
        counts := WithMore(counts, CountOf(step).value, n);
      }
      counts := WithMore(counts, Placeholders, placed);
      return true;
    }

    /** Empties the links that name the person or that only mail to them had,
        link by link. */
    method ClearTrackedLinks()
      modifies this
      ensures tables == Do(ClearLinks, old(tables), look)
      ensures counts == Counted(ClearLinks, old(tables), look, old(counts))
    {
      hide HitsLink, Do;
      var t := tables;
      var cleared := FindLinks(t);
      counts := WithMore(WithMore(counts, LinksCleared, |cleared|), Placeholders, 0);
      tables := t.(links := map k | k in t.links ::
        if k in cleared then t.links[k].(url := None, erased := true) else t.links[k]);
      LinksOnly(t, look);
    }

    method FindLinks(t: Tables) returns (cleared: set<Id>)
      ensures cleared == set k | k in t.links && HitsLink(t, look, t.links[k])
    {
      hide Alone, LinkNames;
      cleared := {};
      var rows := t.links.Keys;
      while rows != {}
        invariant rows <= t.links.Keys
        invariant cleared == set k | k in t.links && k !in rows && HitsLink(t, look, t.links[k])
        decreases |rows|
      {
        var id :| id in rows;
        rows := rows - {id};
        var link := t.links[id];
        if link.url.Some? && (Alone(t, look, link.task) || LinkNames(link.url.value, look.needles)) {
          cleared := cleared + {id};
        }
      }
    }

    /** Runs statements in turn, up to the first that is refused. */
    method Run(steps: seq<Step>) returns (ok: bool)
      modifies this
      ensures ok == !Refused(steps, old(tables), look)
      ensures ok ==> tables == DoAll(steps, old(tables), look)
      ensures ok ==> counts == CountAll(steps, old(tables), look, old(counts))
    {
      hide Do, Counted, IsRefused;
      for i := 0 to |steps|
        invariant DoAll(steps[i..], tables, look) == DoAll(steps, old(tables), look)
        invariant CountAll(steps[i..], tables, look, counts) == CountAll(steps, old(tables), look, old(counts))
        invariant Refused(steps[i..], tables, look) == Refused(steps, old(tables), look)
      {
        assert steps[i..][1..] == steps[i + 1..];
        if steps[i] == ClearLinks {
          NeverRefused(tables, look);
          ClearTrackedLinks();
        } else {
          var done := Exec(steps[i]);
          if !done {
            return false;
          }
        }
      }
      return true;
    }
  }

  lemma NeverRefused(t: Tables, l: Look)
    ensures !IsRefused(ClearLinks, t, l)
  {
  }

  class Store {
    var db: Db

    constructor (db: Db)
      ensures this.db == db
    {
      this.db := db;
    }

    /** Erases one person, in one transaction: nothing is kept of one that
        fails. */
    method EraseAccount(c: Command, at: int) returns (answer: Answer)
      modifies this
      ensures (db, answer) == Erase(old(db), c, at)
    {
      hide Refused, DoAll, CountAll, MailInFlight, CanCommit;
      if c.request in db.receipts {
        return Completed(db.receipts[c.request]);
      }
      var e := new Eraser(db.tables, c);
      var ok := e.Run(FIRST_STEPS);
      if !ok {
        return RolledBack;
      }
      var after := db.(tables := e.tables);
      answer := InProgress;
      if !MailInFlight(e.tables, e.look) {
        ok := e.Run(LAST_STEPS);
        if !ok {
          return RolledBack;
        }
        var receipt := Receipt(at, e.counts);
        after := Db(e.tables, db.receipts[c.request := receipt]);
        answer := Completed(receipt);
      }
      if !CanCommit(after.tables) {
        return RolledBack;
      }
      db := after;
    }
  }
}
