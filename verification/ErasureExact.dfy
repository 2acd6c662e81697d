// What a completed erasure leaves, told without the order of its statements:
// every table, row by row, from the tables it started with.
module ErasureExact {
  import opened Options
  import opened Text
  import opened Erasure
  import opened ErasureProofs
  import opened ErasureDone

  // ---- What is left --------------------------------------------------------

  function SubAfter(l: Look, sub: string): (r: string) {
    if sub == l.subject then DELETED_SUBJECT else sub
  }

  function OptionalSubAfter(l: Look, sub: Option<string>): (r: Option<string>) {
    if sub.Some? then Some(SubAfter(l, sub.value)) else None
  }

  function ActorAfter(l: Look, a: Actor): (r: Actor) {
    if a.sub == Some(l.subject) then Actor(Some(DELETED_SUBJECT), Some(DELETED_NAME)) else a
  }

  /** Mail to the person keeps its send, its status and that it was tracked;
      mail to others that went out loses its text when it names the person. */
  function MailAfter(l: Look, q: QueueRow): (r: QueueRow) {
    if Theirs(l, q) then
      QueueRow(q.task, DELETED_NAME, "", None, "", "", None, q.status, None, None, q.tokenClosed || q.token.Some?, None,
               q.sourceRef)
    else if IsFinal(q) && MailNames(l, q) then q.(subject := "", body := "", html := None)
    else q
  }

  predicate IsDropped(l: Look, q: QueueRow) {
    Theirs(l, q) && IsWaiting(q)
  }

  function ApprovalAfter(l: Look, a: Approval): (r: Approval) {
    var b := a.(variables := if Names(l, a.variables) then NO_VARIABLES else a.variables);
    if a.submitter != l.subject then b
    else b.(submitter := DELETED_SUBJECT, submitterName := Some(DELETED_NAME), submitterEmail := None,
        emailUnverified := false)
  }

  function ApprovalEventAfter(l: Look, e: ApprovalEvent): (r: ApprovalEvent) {
    ApprovalEvent(
      e.rejected,
      OptionalSubAfter(l, e.actor),
      if e.actor == Some(l.subject) then Some(DELETED_NAME) else e.actorName,
      if !HitsNote(l, e) then e.note else if e.rejected then Some(ERASED_NOTE) else None,
      if e.changes.Some? && Names(l, e.changes.value) then None else e.changes)
  }

  /** Whether a stand-in takes the place of the person and stays there. */
  predicate StandsIn(t: Tables, l: Look, k: (Id, nat)) {
    HitsStandIn(t, l, k) && !TakesStandIn(l)
  }

  /** Requests to people left with no one: all were the person's, and none is
      stood in for. */
  function LeftEmpty(t: Tables, l: Look): (r: set<(Id, nat)>) {
    set k | k in t.people && k.0 in t.approvals && t.approvals[k.0].list == None
            && IsEmptied(t, l, k.0) && HasNoStandIn(t, l, k.0) :: (k.0, 1)
  }

  predicate HasNoStandIn(t: Tables, l: Look, approval: Id) {
    forall k | k in t.people && k.0 == approval :: !StandsIn(t, l, k)
  }

  function PeopleLeft(t: Tables, l: Look): (r: map<(Id, nat), Person>) {
    (map k | k in t.people && (IsPersons(l, t.people[k]) ==> StandsIn(t, l, k)) ::
      if IsPersons(l, t.people[k]) then STAND_IN else t.people[k])
    + (map k | k in LeftEmpty(t, l) :: STAND_IN)
  }

  function SourceAfter(t: Tables, l: Look, id: Id, s: FormSource): (r: FormSource) {
    FormSource(SubAfter(l, s.owner), if Names(l, s.title) then ERASED_NOTE else s.title,
               s.invalidated || SourceConcerns(t, l, id, s), s.recipientCount)
  }

  predicate PointsAt(t: Tables, l: Look, s: Suppression, waiting: bool) {
    s.lastQueue.Some? && s.lastQueue.value in t.queue && Theirs(l, t.queue[s.lastQueue.value])
    && IsWaiting(t.queue[s.lastQueue.value]) == waiting
  }

  predicate IsLifted(t: Tables, l: Look, address: string, s: Suppression) {
    address in l.emails || s.sub == Some(l.subject) || PointsAt(t, l, s, false)
  }

  function RecipientsLeft(t: Tables, l: Look): (r: map<Id, Person>) {
    map k | k in t.recipients && !IsPersons(l, t.recipients[k]) :: t.recipients[k]
  }

  function MembershipsLeft(t: Tables, l: Look): (r: map<Id, (Id, Id)>) {
    map k | k in t.memberships && !HitsMembership(t, l, t.memberships[k].1) :: t.memberships[k]
  }

  function QueueLeft(t: Tables, l: Look): (r: map<Id, QueueRow>) {
    map k | k in t.queue && !IsDropped(l, t.queue[k]) :: MailAfter(l, t.queue[k])
  }

  function TasksLeft(t: Tables, l: Look): (r: map<Id, Task>) {
    map k | k in t.tasks ::
      Task(SubAfter(l, t.tasks[k].sentBy), if HitsVariables(t, l, k, t.tasks[k])
          then NO_VARIABLES else t.tasks[k].variables)
  }

  function LinksLeft(t: Tables, l: Look): (r: map<Id, Link>) {
    map k | k in t.links :: if HitsLink(t, l, t.links[k]) then Link(t.links[k].task, None, true) else t.links[k]
  }

  function EventsLeft(t: Tables, l: Look): (r: map<Id, Id>) {
    map k | k in t.events && !HitsEvent(t, l, t.events[k]) :: t.events[k]
  }

  function ApprovalsLeft(t: Tables, l: Look): (r: map<Id, Approval>) {
    map k | k in t.approvals :: ApprovalAfter(l, t.approvals[k])
  }

  function SendsLeft(t: Tables, l: Look): (r: map<(Id, nat), Id>) {
    map k | k in t.sends && (HitsSend(t, l, k) ==> StandsIn(t, l, k)) :: t.sends[k]
  }

  function ApprovalEventsLeft(t: Tables, l: Look): (r: map<Id, ApprovalEvent>) {
    map k | k in t.approvalEvents :: ApprovalEventAfter(l, t.approvalEvents[k])
  }

  function SourcesLeft(t: Tables, l: Look): (r: map<Id, FormSource>) {
    map k | k in t.sources :: SourceAfter(t, l, k, t.sources[k])
  }

  function SourcePeopleLeft(t: Tables, l: Look): (r: map<(Id, nat), Person>) {
    map k | k in t.sourcePeople && !IsPersons(l, t.sourcePeople[k]) :: t.sourcePeople[k]
  }

  function ActorsLeft(actors: map<Id, Actor>, l: Look): (r: map<Id, Actor>) {
    map k | k in actors :: ActorAfter(l, actors[k])
  }

  function SuppressionsLeft(t: Tables, l: Look): (r: map<string, Suppression>) {
    map a | a in t.suppressions && !IsLifted(t, l, a, t.suppressions[a]) ::
      if PointsAt(t, l, t.suppressions[a], true) then t.suppressions[a].(lastQueue := None) else t.suppressions[a]
  }

  function RemovalsLeft(t: Tables, l: Look): (r: map<Id, string>) {
    map k | k in t.removals :: SubAfter(l, t.removals[k])
  }

  function UnsubscribesLeft(t: Tables, l: Look): (r: set<(string, string)>) {
    set u | u in t.unsubscribes && u.0 !in l.emails
  }

  function ReactivationsLeft(t: Tables, l: Look): (r: map<Id, Reactivation>) {
    map k | k in t.reactivations ::
      Reactivation(OptionalSubAfter(l, t.reactivations[k].actor),
                   if HitsReason(l, t.reactivations[k]) then Some(ERASED_NOTE) else t.reactivations[k].reason)
  }

  function InboxLeft(t: Tables, l: Look): (r: map<Id, InboxItem>) {
    map k | k in t.inbox && t.inbox[k].user != l.subject && !HitsItem(l, t.inbox[k]) :: t.inbox[k]
  }

  function ArchiversLeft(archivers: map<Id, Option<string>>, l: Look): (r: map<Id, Option<string>>) {
    map k | k in archivers :: OptionalSubAfter(l, archivers[k])
  }

  /** Every table as an erasure leaves it, from the tables before it. */
  function Erased(t: Tables, l: Look): (r: Tables) {
    Tables(
      RecipientsLeft(t, l), MembershipsLeft(t, l), QueueLeft(t, l), TasksLeft(t, l), LinksLeft(t, l), EventsLeft(t, l),
      ApprovalsLeft(t, l), PeopleLeft(t, l), SendsLeft(t, l), ApprovalEventsLeft(t, l), SourcesLeft(t, l),
      SourcePeopleLeft(t, l), ActorsLeft(t.versions, l), ActorsLeft(t.sensitiveChanges, l),
      ActorsLeft(t.contentViews, l),
      SuppressionsLeft(t, l), RemovalsLeft(t, l), UnsubscribesLeft(t, l), ReactivationsLeft(t, l), InboxLeft(t, l),
      ArchiversLeft(t.templateArchivers, l), ArchiversLeft(t.listArchivers, l))
  }

  // ---- Which tables a statement leaves alone -------------------------------

  datatype Table =
    | InRecipients | InMemberships | InQueue | InTasks | InLinks | InEvents
    | InPeople | InSends | InApprovalEvents | InSources | InSuppressions

  predicate Same(table: Table, t: Tables, u: Tables) {
    match table
    case InRecipients => u.recipients == t.recipients
    case InMemberships => u.memberships == t.memberships
    case InQueue => u.queue == t.queue
    case InTasks => u.tasks == t.tasks
    case InLinks => u.links == t.links
    case InEvents => u.events == t.events
    case InPeople => u.people == t.people
    case InSends => u.sends == t.sends
    case InApprovalEvents => u.approvalEvents == t.approvalEvents
    case InSources => u.sources == t.sources
    case InSuppressions => u.suppressions == t.suppressions
  }

  predicate Changes(table: Table, step: Step) {
    match table
    case InRecipients => step == Recipients
    case InMemberships => step == Memberships
    case InQueue => step == CloseTokens || step == QueuedRows || step == NamingBodies || step == OwnMail
    case InTasks => step == SendVariables || step == Senders
    case InLinks => step == ClearLinks
    case InEvents => step == DropEvents
    case InPeople => step == StandIns || step == ApprovalPeople
    case InSends => step == SendLinks
    case InApprovalEvents => step == ApprovalChanges || step == ApprovalNotes || step == ApprovalActors
    case InSources => step == InvalidateSources || step == SourceOwners || step == SourceTitles
    case InSuppressions => step == QueuedRows || step == Suppressions
  }

  lemma Leaves1(table: Table, step: Step, t: Tables, l: Look)
    requires !Changes(table, step) && (table == InRecipients || table == InMemberships || table == InQueue)
    ensures Same(table, t, Do(step, t, l))
  {
    hide TasksAfter, LinksAfter, EventsAfter, ApprovalsAfter, PeopleAfter, SendsAfter, ApprovalEventsAfter,
      SourcesAfter, SourcePeopleAfter, VersionsAfter, SensitiveChangesAfter, ContentViewsAfter, SuppressionsAfter,
      RemovalsAfter, UnsubscribesAfter, ReactivationsAfter, InboxAfter, TemplateArchiversAfter, ListArchiversAfter,
      Names, LinkNames, Alone, Lower, HitsStandIn, Emptied;
  }

  lemma Leaves2(table: Table, step: Step, t: Tables, l: Look)
    requires !Changes(table, step) && (table == InTasks || table == InLinks || table == InEvents)
    ensures Same(table, t, Do(step, t, l))
  {
    hide RecipientsAfter, MembershipsAfter, QueueAfter, ApprovalsAfter, PeopleAfter, SendsAfter, ApprovalEventsAfter,
      SourcesAfter, SourcePeopleAfter, VersionsAfter, SensitiveChangesAfter, ContentViewsAfter, SuppressionsAfter,
      RemovalsAfter, UnsubscribesAfter, ReactivationsAfter, InboxAfter, TemplateArchiversAfter, ListArchiversAfter,
      Names, LinkNames, Alone, Lower, HitsStandIn, Emptied;
  }

  lemma Leaves3(table: Table, step: Step, t: Tables, l: Look)
    requires !Changes(table, step) && (table == InPeople || table == InSends || table == InApprovalEvents)
    ensures Same(table, t, Do(step, t, l))
  {
    hide RecipientsAfter, MembershipsAfter, QueueAfter, TasksAfter, LinksAfter, EventsAfter, ApprovalsAfter,
      SourcesAfter, SourcePeopleAfter, VersionsAfter, SensitiveChangesAfter, ContentViewsAfter, SuppressionsAfter,
      RemovalsAfter, UnsubscribesAfter, ReactivationsAfter, InboxAfter, TemplateArchiversAfter, ListArchiversAfter,
      Names, LinkNames, Alone, Lower, HitsStandIn, Emptied;
  }

  lemma Leaves4(table: Table, step: Step, t: Tables, l: Look)
    requires !Changes(table, step) && (table == InSources || table == InSuppressions)
    ensures Same(table, t, Do(step, t, l))
  {
    hide RecipientsAfter, MembershipsAfter, QueueAfter, TasksAfter, LinksAfter, EventsAfter, ApprovalsAfter,
      PeopleAfter, SendsAfter, ApprovalEventsAfter, SourcePeopleAfter, VersionsAfter, SensitiveChangesAfter,
      ContentViewsAfter, RemovalsAfter, UnsubscribesAfter, ReactivationsAfter, InboxAfter, TemplateArchiversAfter,
      ListArchiversAfter, Names, LinkNames, Alone, Lower, HitsStandIn, Emptied;
  }

  lemma StepLeaves(table: Table, step: Step, t: Tables, l: Look)
    requires !Changes(table, step)
    ensures Same(table, t, Do(step, t, l))
  {
    hide Changes, Same, Do;
    match table {
      case InRecipients | InMemberships | InQueue => Leaves1(table, step, t, l);
      case InTasks | InLinks | InEvents => Leaves2(table, step, t, l);
      case InPeople | InSends | InApprovalEvents => Leaves3(table, step, t, l);
      case InSources | InSuppressions => Leaves4(table, step, t, l);
    }
  }

  // ---- The tables after the first statements -------------------------------

  function AllSteps(): (r: seq<Step>)
    ensures |r| == 34
  {
    FIRST_STEPS + LAST_STEPS
  }

  function At(n: nat, t: Tables, l: Look): (r: Tables)
    requires n <= |AllSteps()|
  {
    if n == 0 then t else Do(AllSteps()[n - 1], At(n - 1, t, l), l)
  }

  lemma {:induction false} AtIsDone(n: nat, t: Tables, l: Look)
    requires n <= |AllSteps()|
    ensures DoAll(AllSteps(), t, l) == DoAll(AllSteps()[n..], At(n, t, l), l)
  {
    hide Do;
    if n == 0 {
      assert AllSteps()[0..] == AllSteps();
    } else {
      AtIsDone(n - 1, t, l);
      assert AllSteps()[n - 1..][1..] == AllSteps()[n..];
    }
  }

  lemma {:induction false} AtFirst(n: nat, t: Tables, l: Look)
    requires n <= |FIRST_STEPS|
    ensures DoAll(FIRST_STEPS, t, l) == DoAll(FIRST_STEPS[n..], At(n, t, l), l)
  {
    hide Do;
    if n == 0 {
      assert FIRST_STEPS[0..] == FIRST_STEPS;
    } else {
      AtFirst(n - 1, t, l);
      assert AllSteps()[n - 1] == FIRST_STEPS[n - 1];
      assert FIRST_STEPS[n - 1..][1..] == FIRST_STEPS[n..];
    }
  }

  const MIDDLE: nat := 16
  const END: nat := 34

  lemma ErasedAt(t: Tables, l: Look)
    ensures DoAll(FIRST_STEPS, t, l) == At(MIDDLE, t, l)
    ensures DoAll(LAST_STEPS, At(MIDDLE, t, l), l) == At(END, t, l)
  {
    hide Do, At;
    AtFirst(MIDDLE, t, l);
    assert FIRST_STEPS[MIDDLE..] == [];
    AtIsDone(END, t, l);
    assert AllSteps()[END..] == [];
    DoInTurn(FIRST_STEPS, LAST_STEPS, t, l);
  }

  lemma {:induction false} Stays(table: Table, i: nat, j: nat, t: Tables, l: Look)
    requires i <= j <= END && forall n | i <= n < j :: !Changes(table, AllSteps()[n])
    ensures Same(table, At(i, t, l), At(j, t, l))
    decreases j - i
  {
    hide Do, Changes, AllSteps;
    if i < j {
      Stays(table, i, j - 1, t, l);
      StepLeaves(table, AllSteps()[j - 1], At(j - 1, t, l), l);
    }
  }

  lemma {:induction false} LessensSince(i: nat, j: nat, t: Tables, l: Look)
    requires IsLook(l) && i <= j <= END
    ensures Lessens(At(i, t, l), At(j, t, l), l)
    decreases j - i
  {
    hide Lessens, Do, IsLook, AllSteps;
    if i == j {
      LessensNothing(At(i, t, l), l);
    } else {
      LessensSince(i, j - 1, t, l);
      DoLessens(AllSteps()[j - 1], At(j - 1, t, l), l);
      LessensInTurn(At(i, t, l), At(j - 1, t, l), At(j, t, l), l);
    }
  }

  lemma RecipientsPlaces()
    ensures AllSteps()[33] == Recipients
    ensures forall n | 0 <= n < END && n != 33 :: !Changes(InRecipients, AllSteps()[n])
  {
  }

  lemma MembershipsPlaces()
    ensures AllSteps()[32] == Memberships
    ensures forall n | 0 <= n < END && n != 32 :: !Changes(InMemberships, AllSteps()[n])
  {
  }

  lemma QueuePlaces()
    ensures AllSteps()[1] == CloseTokens && AllSteps()[8] == QueuedRows && AllSteps()[9] == NamingBodies
            && AllSteps()[31] == OwnMail
    ensures forall n | 0 <= n < END && n != 1 && n != 8 && n != 9 && n != 31 :: !Changes(InQueue, AllSteps()[n])
  {
  }

  lemma TasksPlaces()
    ensures AllSteps()[4] == SendVariables && AllSteps()[13] == Senders
    ensures forall n | 0 <= n < END && n != 4 && n != 13 :: !Changes(InTasks, AllSteps()[n])
  {
  }

  lemma LinksPlaces()
    ensures AllSteps()[2] == ClearLinks
    ensures forall n | 0 <= n < END && n != 2 :: !Changes(InLinks, AllSteps()[n])
  {
  }

  lemma EventsPlaces()
    ensures AllSteps()[3] == DropEvents
    ensures forall n | 0 <= n < END && n != 3 :: !Changes(InEvents, AllSteps()[n])
  {
  }

  lemma PeoplePlaces()
    ensures AllSteps()[26] == StandIns && AllSteps()[28] == ApprovalPeople
    ensures forall n | 0 <= n < END && n != 26 && n != 28 :: !Changes(InPeople, AllSteps()[n])
  {
  }

  lemma SendsPlaces()
    ensures AllSteps()[27] == SendLinks
    ensures forall n | 0 <= n < END && n != 27 :: !Changes(InSends, AllSteps()[n])
  {
  }

  lemma ApprovalEventsPlaces()
    ensures AllSteps()[10] == ApprovalChanges && AllSteps()[11] == ApprovalNotes && AllSteps()[21] == ApprovalActors
    ensures forall n | 0 <= n < END && n != 10 && n != 11 && n != 21 :: !Changes(InApprovalEvents, AllSteps()[n])
  {
  }

  lemma SourcesPlaces()
    ensures AllSteps()[0] == InvalidateSources && AllSteps()[16] == SourceOwners && AllSteps()[17] == SourceTitles
    ensures forall n | 0 <= n < END && n != 0 && n != 16 && n != 17 :: !Changes(InSources, AllSteps()[n])
  {
  }

  lemma SuppressionsPlaces()
    ensures AllSteps()[8] == QueuedRows && AllSteps()[29] == Suppressions
    ensures forall n | 0 <= n < END && n != 8 && n != 29 :: !Changes(InSuppressions, AllSteps()[n])
  {
  }

  lemma AtNext(n: nat, t: Tables, l: Look)
    requires n < END
    ensures At(n + 1, t, l) == Do(AllSteps()[n], At(n, t, l), l)
  {
    hide Do, AllSteps;
  }

  lemma AtStart(t: Tables, l: Look)
    ensures At(0, t, l) == t
  {
  }

  lemma MembershipsAt(step: Step, n: nat, t: Tables, l: Look)
    requires n < END && AllSteps()[n] == step
    ensures At(n + 1, t, l).memberships == MembershipsAfter(step, At(n, t, l), l)
  {
    hide At, AllSteps, Do, MembershipsAfter;
    AtNext(n, t, l);
    MembershipsOf(step, At(n, t, l), l);
  }

  lemma QueueAt(step: Step, n: nat, t: Tables, l: Look)
    requires n < END && AllSteps()[n] == step
    ensures At(n + 1, t, l).queue == QueueAfter(step, At(n, t, l), l)
  {
    hide At, AllSteps, Do, QueueAfter;
    AtNext(n, t, l);
    QueueOf(step, At(n, t, l), l);
  }

  lemma TasksAt(step: Step, n: nat, t: Tables, l: Look)
    requires n < END && AllSteps()[n] == step
    ensures At(n + 1, t, l).tasks == TasksAfter(step, At(n, t, l), l)
  {
    hide At, AllSteps, Do, TasksAfter;
    AtNext(n, t, l);
    TasksOf(step, At(n, t, l), l);
  }

  lemma LinksAt(step: Step, n: nat, t: Tables, l: Look)
    requires n < END && AllSteps()[n] == step
    ensures At(n + 1, t, l).links == LinksAfter(step, At(n, t, l), l)
  {
    hide At, AllSteps, Do, LinksAfter;
    AtNext(n, t, l);
    LinksOf(step, At(n, t, l), l);
  }

  lemma EventsAt(step: Step, n: nat, t: Tables, l: Look)
    requires n < END && AllSteps()[n] == step
    ensures At(n + 1, t, l).events == EventsAfter(step, At(n, t, l), l)
  {
    hide At, AllSteps, Do, EventsAfter;
    AtNext(n, t, l);
    EventsOf(step, At(n, t, l), l);
  }

  lemma PeopleAt(step: Step, n: nat, t: Tables, l: Look)
    requires n < END && AllSteps()[n] == step
    ensures At(n + 1, t, l).people == PeopleAfter(step, At(n, t, l), l)
  {
    hide At, AllSteps, Do, PeopleAfter;
    AtNext(n, t, l);
    PeopleOf(step, At(n, t, l), l);
  }

  lemma SendsAt(step: Step, n: nat, t: Tables, l: Look)
    requires n < END && AllSteps()[n] == step
    ensures At(n + 1, t, l).sends == SendsAfter(step, At(n, t, l), l)
  {
    hide At, AllSteps, Do, SendsAfter;
    AtNext(n, t, l);
    SendsOf(step, At(n, t, l), l);
  }

  lemma ApprovalEventsAt(step: Step, n: nat, t: Tables, l: Look)
    requires n < END && AllSteps()[n] == step
    ensures At(n + 1, t, l).approvalEvents == ApprovalEventsAfter(step, At(n, t, l), l)
  {
    hide At, AllSteps, Do, ApprovalEventsAfter;
    AtNext(n, t, l);
    ApprovalEventsOf(step, At(n, t, l), l);
  }

  lemma SourcesAt(step: Step, n: nat, t: Tables, l: Look)
    requires n < END && AllSteps()[n] == step
    ensures At(n + 1, t, l).sources == SourcesAfter(step, At(n, t, l), l)
  {
    hide At, AllSteps, Do, SourcesAfter;
    AtNext(n, t, l);
    SourcesOf(step, At(n, t, l), l);
  }

  lemma SuppressionsAt(step: Step, n: nat, t: Tables, l: Look)
    requires n < END && AllSteps()[n] == step
    ensures At(n + 1, t, l).suppressions == SuppressionsAfter(step, At(n, t, l), l)
  {
    hide At, AllSteps, Do, SuppressionsAfter;
    AtNext(n, t, l);
    SuppressionsOf(step, At(n, t, l), l);
  }

  // ---- Table by table ------------------------------------------------------

  function Unchanged(l: Look, e: ApprovalEvent): (r: ApprovalEvent) {
    if e.changes.Some? && Names(l, e.changes.value) then e.(changes := None) else e
  }

  function Unnoted(l: Look, e: ApprovalEvent): (r: ApprovalEvent) {
    if HitsNote(l, e) then e.(note := if e.rejected then Some(ERASED_NOTE) else None) else e
  }

  function Unsigned(l: Look, e: ApprovalEvent): (r: ApprovalEvent) {
    if e.actor == Some(l.subject) then e.(actor := Some(DELETED_SUBJECT), actorName := Some(DELETED_NAME)) else e
  }

  lemma ApprovalEventThrough(l: Look, e: ApprovalEvent)
    ensures Unsigned(l, Unnoted(l, Unchanged(l, e))) == ApprovalEventAfter(l, e)
  {
    hide Names;
  }

  lemma EachApprovalEvent(step: Step, t: Tables, l: Look)
    ensures var r := ApprovalEventsAfter(step, t, l);
            && r.Keys == t.approvalEvents.Keys
            && (step == ApprovalChanges ==> forall k | k in r :: r[k] == Unchanged(l, t.approvalEvents[k]))
            && (step == ApprovalNotes ==> forall k | k in r :: r[k] == Unnoted(l, t.approvalEvents[k]))
            && (step == ApprovalActors ==> forall k | k in r :: r[k] == Unsigned(l, t.approvalEvents[k]))
  {
    hide Names, HitsNote;
  }

  lemma ApprovalEventsThrough(t: Tables, u: Tables, v: Tables, w: Tables, l: Look)
    requires u.approvalEvents == ApprovalEventsAfter(ApprovalChanges, t, l)
    requires v.approvalEvents == ApprovalEventsAfter(ApprovalNotes, u, l)
    requires w.approvalEvents == ApprovalEventsAfter(ApprovalActors, v, l)
    ensures w.approvalEvents == ApprovalEventsLeft(t, l)
  {
    hide Unchanged, Unnoted, Unsigned, ApprovalEventsAfter, ApprovalEventAfter;
    EachApprovalEvent(ApprovalChanges, t, l);
    EachApprovalEvent(ApprovalNotes, u, l);
    EachApprovalEvent(ApprovalActors, v, l);
    forall k | k in t.approvalEvents
      ensures w.approvalEvents[k] == ApprovalEventAfter(l, t.approvalEvents[k])
    {
      ApprovalEventThrough(l, t.approvalEvents[k]);
    }
  }

  lemma ApprovalEventsExact(t: Tables, l: Look)
    ensures At(END, t, l).approvalEvents == ApprovalEventsLeft(t, l)
  {
    hide At, Do, AllSteps, Changes, ApprovalEventsAfter, ApprovalEventsLeft;
    AtStart(t, l);
    ApprovalEventsPlaces();
    Stays(InApprovalEvents, 0, 10, t, l);
    ApprovalEventsAt(ApprovalChanges, 10, t, l);
    ApprovalEventsAt(ApprovalNotes, 11, t, l);
    Stays(InApprovalEvents, 12, 21, t, l);
    ApprovalEventsAt(ApprovalActors, 21, t, l);
    Stays(InApprovalEvents, 22, END, t, l);
    SameApprovalEvents(ApprovalChanges, t, At(10, t, l), l);
    SameApprovalEvents(ApprovalActors, At(12, t, l), At(21, t, l), l);
    ApprovalEventsThrough(t, At(11, t, l), At(12, t, l), At(22, t, l), l);
  }

  lemma SameApprovalEvents(step: Step, t: Tables, u: Tables, l: Look)
    requires u.approvalEvents == t.approvalEvents
    ensures ApprovalEventsAfter(step, u, l) == ApprovalEventsAfter(step, t, l)
  {
    hide Names, Lower;
  }

  lemma ListsExact(t: Tables, u: Tables, l: Look)
    requires LessAddresses(t, u, l) && Idle(Recipients, u, l) && Idle(Unsubscribes, u, l)
    ensures u.recipients == RecipientsLeft(t, l)
    ensures u.unsubscribes == UnsubscribesLeft(t, l)
  {
    hide Names, Lower;
  }

  lemma SourcePeopleExact(t: Tables, u: Tables, l: Look)
    requires LessSourcePeople(t, u, l) && Idle(SourcePeople, u, l)
    ensures u.sourcePeople == SourcePeopleLeft(t, l)
  {
    hide Names, Lower;
  }

  lemma ActorsOf(a: map<Id, Actor>, b: map<Id, Actor>, l: Look)
    requires LessActors(l, a, b) && forall k | k in b :: b[k].sub != Some(l.subject)
    ensures b == ActorsLeft(a, l)
  {
  }

  lemma ActorsExact(t: Tables, u: Tables, l: Look)
    requires LessRecords(t, u, l) && Idle(Authors, u, l) && Idle(SensitiveActors, u, l) && Idle(ViewActors, u, l)
    ensures u.versions == ActorsLeft(t.versions, l)
    ensures u.sensitiveChanges == ActorsLeft(t.sensitiveChanges, l)
    ensures u.contentViews == ActorsLeft(t.contentViews, l)
  {
    hide LessActors, ActorsLeft;
    ActorsOf(t.versions, u.versions, l);
    ActorsOf(t.sensitiveChanges, u.sensitiveChanges, l);
    ActorsOf(t.contentViews, u.contentViews, l);
  }

  lemma ColumnsExact(t: Tables, u: Tables, l: Look)
    requires LessColumns(t, u, l) && Idle(Removers, u, l) && Idle(TemplateArchivers, u, l) && Idle(ListArchivers, u, l)
    ensures u.removals == RemovalsLeft(t, l)
    ensures u.templateArchivers == ArchiversLeft(t.templateArchivers, l)
    ensures u.listArchivers == ArchiversLeft(t.listArchivers, l)
  {
    hide Names, Lower;
  }

  lemma ApprovalsExact(t: Tables, u: Tables, l: Look)
    requires LessApprovals(t, u, l) && Idle(ApprovalVariables, u, l) && Idle(Submitters, u, l)
    ensures u.approvals == ApprovalsLeft(t, l)
  {
    hide Names, Lower;
  }

  lemma ReactivationsExact(t: Tables, u: Tables, l: Look)
    requires LessReactivations(t, u, l) && Idle(Reasons, u, l) && Idle(Reactivators, u, l)
    ensures u.reactivations == ReactivationsLeft(t, l)
  {
    hide Names, Lower;
  }

  lemma InboxExact(t: Tables, u: Tables, l: Look)
    requires LessInbox(t, u, l) && Idle(OwnInbox, u, l) && Idle(NamingInbox, u, l)
    ensures u.inbox == InboxLeft(t, l)
  {
    hide Names, Lower;
  }

  // Tables whose rows are found by another table's rows.

  lemma SameMail(step: Step, t: Tables, u: Tables, l: Look)
    requires u.queue == t.queue
    ensures QueueAfter(step, u, l) == QueueAfter(step, t, l)
  {
    hide Theirs, MailNames;
  }

  /** The mail as each statement on it leaves it. */
  lemma FirstMails(t: Tables, l: Look)
    ensures var b, g := At(2, t, l), At(9, t, l);
            && b.queue == QueueAfter(CloseTokens, t, l)
            && (forall n | 2 <= n <= 8 :: At(n, t, l).queue == b.queue)
            && g.queue == QueueAfter(QueuedRows, b, l)
  {
    hide At, Do, AllSteps, Changes, QueueAfter;
    FirstMail(t, l);
    QueuePlaces();
    var b := At(2, t, l);
    forall n | 2 <= n <= 8
      ensures At(n, t, l).queue == b.queue
    {
      Stays(InQueue, 2, n, t, l);
    }
    QueueAt(QueuedRows, 8, t, l);
    SameMail(QueuedRows, b, At(8, t, l), l);
  }

  lemma FirstMail(t: Tables, l: Look)
    ensures At(2, t, l).queue == QueueAfter(CloseTokens, t, l)
  {
    hide At, Do, AllSteps, Changes, QueueAfter;
    AtStart(t, l);
    QueuePlaces();
    Stays(InQueue, 0, 1, t, l);
    QueueAt(CloseTokens, 1, t, l);
    SameMail(CloseTokens, t, At(1, t, l), l);
  }

  lemma LastMails(t: Tables, l: Look)
    ensures var g, h := At(9, t, l), At(10, t, l);
            && h.queue == QueueAfter(NamingBodies, g, l)
            && (forall n | 10 <= n <= 31 :: At(n, t, l).queue == h.queue)
            && At(END, t, l).queue == QueueAfter(OwnMail, h, l)
  {
    hide At, Do, AllSteps, Changes, QueueAfter;
    QueuePlaces();
    var h := At(10, t, l);
    QueueAt(NamingBodies, 9, t, l);
    forall n | 10 <= n <= 31
      ensures At(n, t, l).queue == h.queue
    {
      Stays(InQueue, 10, n, t, l);
    }
    QueueAt(OwnMail, 31, t, l);
    SameMail(OwnMail, h, At(31, t, l), l);
    Stays(InQueue, 32, END, t, l);
  }

  function Closed(l: Look, q: QueueRow): (r: QueueRow) {
    if q.token.Some? && Theirs(l, q) then q.(token := None, tokenClosed := true) else q
  }

  function Stripped(l: Look, q: QueueRow): (r: QueueRow) {
    if HitsBody(l, q) then q.(subject := "", body := "", html := None) else q
  }

  function Finished(l: Look, q: QueueRow): (r: QueueRow) {
    if IsFinal(q) && Theirs(l, q) then Cleared(q) else q
  }

  lemma MailKept(l: Look, q: QueueRow)
    ensures var b := Closed(l, q);
            && b.task == q.task && Theirs(l, b) == Theirs(l, q) && IsWaiting(b) == IsWaiting(q)
            && IsDropped(l, b) == IsDropped(l, q)
  {
    hide Lower;
  }

  lemma StrippedIsAsTheirs(l: Look, q: QueueRow)
    ensures Theirs(l, Stripped(l, q)) == Theirs(l, q)
  {
    hide Lower, HitsBody;
  }

  /** What the statements on the mail leave of one mail. */
  lemma MailThrough(l: Look, q: QueueRow)
    requires IsLook(l) && !IsDropped(l, q) && !IsInFlight(l, Stripped(l, Closed(l, q)))
    ensures Finished(l, Stripped(l, Closed(l, q))) == MailAfter(l, q)
  {
    hide Names, Lower;
    Constants(l);
    StatusIsOne(q);
  }

  lemma MailsClosed(t: Tables, l: Look)
    ensures var q := QueueAfter(CloseTokens, t, l);
            q.Keys == t.queue.Keys && forall k | k in q :: q[k] == Closed(l, t.queue[k])
  {
    hide Theirs;
  }

  lemma MailsDropped(t: Tables, l: Look)
    ensures var q := QueueAfter(QueuedRows, t, l);
            (forall k :: k in q <==> k in t.queue && !IsDropped(l, t.queue[k])) && forall k | k in q ::
                q[k] == t.queue[k]
  {
    hide Theirs, IsWaiting;
  }

  lemma MailsStripped(t: Tables, l: Look)
    ensures var q := QueueAfter(NamingBodies, t, l);
            q.Keys == t.queue.Keys && forall k | k in q :: q[k] == Stripped(l, t.queue[k])
  {
    hide HitsBody;
  }

  lemma MailsFinished(t: Tables, l: Look)
    ensures var q := QueueAfter(OwnMail, t, l);
            q.Keys == t.queue.Keys && forall k | k in q :: q[k] == Finished(l, t.queue[k])
  {
    hide Theirs, IsFinal, Cleared;
  }

  lemma MailsThrough(t: Tables, b: Tables, g: Tables, h: Tables, u: Tables, l: Look)
    requires b.queue == QueueAfter(CloseTokens, t, l) && g.queue == QueueAfter(QueuedRows, b, l)
    requires h.queue == QueueAfter(NamingBodies, g, l) && u.queue == QueueAfter(OwnMail, h, l)
    ensures forall k :: k in b.queue <==> k in t.queue
    ensures forall k | k in t.queue :: b.queue[k] == Closed(l, t.queue[k])
    ensures forall k :: k in h.queue <==> k in t.queue && !IsDropped(l, Closed(l, t.queue[k]))
    ensures forall k | k in h.queue :: h.queue[k] == Stripped(l, Closed(l, t.queue[k]))
    ensures forall k :: k in u.queue <==> k in h.queue
    ensures forall k | k in u.queue :: u.queue[k] == Finished(l, h.queue[k])
  {
    hide QueueAfter, Closed, Stripped, Finished, IsDropped;
    MailsClosed(t, l);
    MailsDropped(b, l);
    MailsStripped(g, l);
    MailsFinished(h, l);
  }

  lemma QueueExact(t: Tables, l: Look)
    requires IsLook(l) && !MailInFlight(At(MIDDLE, t, l), l)
    ensures At(END, t, l).queue == QueueLeft(t, l)
  {
    hide Do, AllSteps, At, IsLook, QueueAfter, MailAfter, IsDropped, IsInFlight, Closed, Stripped, Finished;
    FirstMails(t, l);
    LastMails(t, l);
    var h, u := At(10, t, l), At(END, t, l);
    MailsThrough(t, At(2, t, l), At(9, t, l), h, u, l);
    assert At(MIDDLE, t, l).queue == h.queue;
    forall k | k in t.queue
      ensures k in u.queue <==> !IsDropped(l, t.queue[k])
      ensures k in u.queue ==> u.queue[k] == MailAfter(l, t.queue[k])
    {
      MailKept(l, t.queue[k]);
      if k in u.queue {
        assert !IsInFlight(l, At(MIDDLE, t, l).queue[k]);
        MailThrough(l, t.queue[k]);
      }
    }
  }

  /** Closing tokens changes whose a mail is for no one. */
  lemma SameAlone(t: Tables, b: Tables, l: Look)
    requires b.queue == QueueAfter(CloseTokens, t, l)
    ensures forall task: Id :: Alone(b, l, task) == Alone(t, l, task)
    ensures forall mail: Id :: HitsEvent(b, l, mail) == HitsEvent(t, l, mail)
  {
    hide Theirs;
    assert b.queue.Keys == t.queue.Keys;
    forall k | k in t.queue
      ensures b.queue[k].task == t.queue[k].task && Theirs(l, b.queue[k]) == Theirs(l, t.queue[k])
    {
      MailKept(l, t.queue[k]);
    }
    forall task: Id
      ensures Alone(b, l, task) == Alone(t, l, task)
    {
      AloneAlike(t, b, l, task);
      AloneAlike(b, t, l, task);
    }
  }

  lemma AloneAlike(t: Tables, b: Tables, l: Look, task: Id)
    requires b.queue.Keys == t.queue.Keys
    requires forall k | k in t.queue ::
             b.queue[k].task == t.queue[k].task && Theirs(l, b.queue[k]) == Theirs(l, t.queue[k])
    ensures Alone(t, l, task) ==> Alone(b, l, task)
  {
    hide Theirs;
    if Alone(t, l, task) {
      var k :| k in t.queue && t.queue[k].task == task;
      assert k in b.queue && b.queue[k].task == task;
    }
  }

  lemma LinksThrough(t: Tables, b: Tables, u: Tables, l: Look)
    requires b.links == t.links && forall task: Id :: Alone(b, l, task) == Alone(t, l, task)
    requires u.links == LinksAfter(ClearLinks, b, l)
    ensures u.links == LinksLeft(t, l)
  {
    hide Alone, LinkNames;
  }

  lemma LinksExact(t: Tables, l: Look)
    ensures At(END, t, l).links == LinksLeft(t, l)
  {
    hide At, Do, AllSteps, Changes, LinksAfter, LinksLeft, Alone, HitsEvent, QueueAfter;
    AtStart(t, l);
    LinksPlaces();
    FirstMails(t, l);
    SameAlone(t, At(2, t, l), l);
    Stays(InLinks, 0, 2, t, l);
    LinksAt(ClearLinks, 2, t, l);
    LinksThrough(t, At(2, t, l), At(3, t, l), l);
    Stays(InLinks, 3, END, t, l);
  }

  lemma EventsThrough(t: Tables, b: Tables, u: Tables, l: Look)
    requires b.events == t.events && forall mail: Id :: HitsEvent(b, l, mail) == HitsEvent(t, l, mail)
    requires u.events == EventsAfter(DropEvents, b, l)
    ensures u.events == EventsLeft(t, l)
  {
    hide HitsEvent;
  }

  lemma SameMailSameHits(b: Tables, c: Tables, l: Look)
    requires c.queue == b.queue
    ensures forall mail: Id :: HitsEvent(c, l, mail) == HitsEvent(b, l, mail)
    ensures forall task: Id :: Alone(c, l, task) == Alone(b, l, task)
  {
    hide Theirs;
  }

  lemma EventsExact(t: Tables, l: Look)
    ensures At(END, t, l).events == EventsLeft(t, l)
  {
    hide At, Do, AllSteps, Changes, EventsAfter, EventsLeft, Alone, HitsEvent, QueueAfter;
    AtStart(t, l);
    EventsPlaces();
    FirstMails(t, l);
    SameAlone(t, At(2, t, l), l);
    SameMailSameHits(At(2, t, l), At(3, t, l), l);
    Stays(InEvents, 0, 3, t, l);
    EventsAt(DropEvents, 3, t, l);
    EventsThrough(t, At(3, t, l), At(4, t, l), l);
    Stays(InEvents, 4, END, t, l);
  }

  lemma TasksThrough(t: Tables, b: Tables, c: Tables, d: Tables, u: Tables, l: Look)
    requires b.tasks == t.tasks && forall task: Id :: Alone(b, l, task) == Alone(t, l, task)
    requires c.tasks == TasksAfter(SendVariables, b, l) && d.tasks == c.tasks && u.tasks == TasksAfter(Senders, d, l)
    ensures u.tasks == TasksLeft(t, l)
  {
    hide HitsVariables;
    forall k | k in t.tasks
      ensures HitsVariables(b, l, k, t.tasks[k]) == HitsVariables(t, l, k, t.tasks[k])
    {
      SameVariables(t, b, l, k, t.tasks[k]);
    }
  }

  lemma SameVariables(t: Tables, b: Tables, l: Look, id: Id, task: Task)
    requires Alone(b, l, id) == Alone(t, l, id)
    ensures HitsVariables(b, l, id, task) == HitsVariables(t, l, id, task)
  {
    hide Alone, Names;
  }

  lemma TasksExact(t: Tables, l: Look)
    ensures At(END, t, l).tasks == TasksLeft(t, l)
  {
    hide At, Do, AllSteps, Changes, TasksAfter, TasksLeft, Alone, HitsEvent, QueueAfter;
    AtStart(t, l);
    TasksPlaces();
    FirstMails(t, l);
    SameAlone(t, At(2, t, l), l);
    SameMailSameHits(At(2, t, l), At(4, t, l), l);
    Stays(InTasks, 0, 4, t, l);
    TasksAt(SendVariables, 4, t, l);
    Stays(InTasks, 5, 13, t, l);
    TasksAt(Senders, 13, t, l);
    TasksThrough(t, At(4, t, l), At(5, t, l), At(13, t, l), At(14, t, l), l);
    Stays(InTasks, 14, END, t, l);
  }

  lemma MembershipsThrough(t: Tables, b: Tables, u: Tables, l: Look)
    requires b.memberships == t.memberships && b.recipients == t.recipients
    requires u.memberships == MembershipsAfter(Memberships, b, l)
    ensures u.memberships == MembershipsLeft(t, l)
  {
    hide Lower;
  }

  lemma MembershipsExact(t: Tables, l: Look)
    ensures At(END, t, l).memberships == MembershipsLeft(t, l)
  {
    hide At, Do, AllSteps, Changes, MembershipsAfter, MembershipsLeft;
    AtStart(t, l);
    MembershipsPlaces();
    RecipientsPlaces();
    Stays(InMemberships, 0, 32, t, l);
    Stays(InRecipients, 0, 32, t, l);
    MembershipsAt(Memberships, 32, t, l);
    MembershipsThrough(t, At(32, t, l), At(33, t, l), l);
    Stays(InMemberships, 33, END, t, l);
  }

  lemma EachSource(step: Step, t: Tables, l: Look)
    ensures var r := SourcesAfter(step, t, l);
            && r.Keys == t.sources.Keys
            && (step == InvalidateSources ==>
                  forall k | k in r ::
                    var s := t.sources[k];
                    r[k] == s.(invalidated := s.invalidated || SourceConcerns(t, l, k, s)))
            && (step == SourceOwners ==>
                  forall k | k in r :: r[k] == t.sources[k].(owner := SubAfter(l, t.sources[k].owner)))
            && (step == SourceTitles ==>
                  forall k | k in r ::
                    var s := t.sources[k];
                    r[k] == s.(title := if Names(l, s.title) then ERASED_NOTE else s.title))
  {
    hide SourceConcerns, Names;
  }

  lemma SourcesThrough(t: Tables, b: Tables, c: Tables, u: Tables, l: Look)
    requires b.sources == SourcesAfter(InvalidateSources, t, l)
    requires c.sources == SourcesAfter(SourceOwners, b, l) && u.sources == SourcesAfter(SourceTitles, c, l)
    ensures u.sources == SourcesLeft(t, l)
  {
    hide SourcesAfter, SourceConcerns, Names, SubAfter;
    EachSource(InvalidateSources, t, l);
    EachSource(SourceOwners, b, l);
    EachSource(SourceTitles, c, l);
  }

  lemma SameSources(step: Step, b: Tables, c: Tables, l: Look)
    requires step == SourceOwners || step == SourceTitles
    requires c.sources == b.sources
    ensures SourcesAfter(step, c, l) == SourcesAfter(step, b, l)
  {
    hide SourceConcerns, Names;
  }

  lemma SourcesExact(t: Tables, l: Look)
    ensures At(END, t, l).sources == SourcesLeft(t, l)
  {
    hide At, Do, AllSteps, Changes, SourcesAfter, SourcesLeft;
    AtStart(t, l);
    SourcesPlaces();
    SourcesAt(InvalidateSources, 0, t, l);
    Stays(InSources, 1, 16, t, l);
    SourcesAt(SourceOwners, 16, t, l);
    SameSources(SourceOwners, At(1, t, l), At(16, t, l), l);
    SourcesAt(SourceTitles, 17, t, l);
    SourcesThrough(t, At(1, t, l), At(17, t, l), At(18, t, l), l);
    Stays(InSources, 18, END, t, l);
  }

  function Unpointed(t: Tables, l: Look, s: Suppression): (r: Suppression) {
    if PointsAt(t, l, s, true) then s.(lastQueue := None) else s
  }

  lemma SuppressionThrough(t: Tables, f: Tables, p: Tables, l: Look, a: string, s: Suppression)
    requires forall k :: k in f.queue <==> k in t.queue
    requires forall k | k in t.queue ::
               Theirs(l, f.queue[k]) == Theirs(l, t.queue[k]) && IsWaiting(f.queue[k]) == IsWaiting(t.queue[k])
    requires forall k :: k in p.queue <==> k in t.queue && !IsDropped(l, t.queue[k])
    requires forall k | k in p.queue :: Theirs(l, p.queue[k]) == Theirs(l, t.queue[k])
    ensures Unpointed(f, l, s) == Unpointed(t, l, s)
    ensures HitsSuppression(p, l, a, Unpointed(t, l, s)) <==> IsLifted(t, l, a, s)
  {
    hide Theirs, IsWaiting;
  }

  lemma SuppressionsUnpointed(t: Tables, l: Look)
    ensures var s := SuppressionsAfter(QueuedRows, t, l);
            s.Keys == t.suppressions.Keys && forall a | a in s :: s[a] == Unpointed(t, l, t.suppressions[a])
  {
    hide Theirs, IsWaiting;
  }

  lemma SuppressionsLifted(t: Tables, l: Look)
    ensures var s := SuppressionsAfter(Suppressions, t, l);
            && (forall a :: a in s <==> a in t.suppressions && !HitsSuppression(t, l, a, t.suppressions[a]))
            && (forall a | a in s :: s[a] == t.suppressions[a])
  {
    hide HitsSuppression;
  }

  lemma SuppressionsThrough(t: Tables, f: Tables, s: Tables, p: Tables, u: Tables, l: Look)
    requires f.suppressions == t.suppressions && s.suppressions == SuppressionsAfter(QueuedRows, f, l)
    requires p.suppressions == s.suppressions && u.suppressions == SuppressionsAfter(Suppressions, p, l)
    requires forall a | a in t.suppressions ::
               && Unpointed(f, l, t.suppressions[a]) == Unpointed(t, l, t.suppressions[a])
               && (HitsSuppression(p, l, a, Unpointed(t, l, t.suppressions[a]))
                  <==> IsLifted(t, l, a, t.suppressions[a]))
    ensures u.suppressions == SuppressionsLeft(t, l)
  {
    hide SuppressionsAfter, PointsAt, HitsSuppression, IsLifted;
    SuppressionsUnpointed(f, l);
    SuppressionsLifted(p, l);
  }

  lemma MailsForSuppressions(t: Tables, l: Look)
    ensures var f, p := At(8, t, l), At(29, t, l);
            && (forall k :: k in f.queue <==> k in t.queue)
            && (forall k | k in t.queue ::
                  Theirs(l, f.queue[k]) == Theirs(l, t.queue[k]) && IsWaiting(f.queue[k]) == IsWaiting(t.queue[k]))
            && (forall k :: k in p.queue <==> k in t.queue && !IsDropped(l, t.queue[k]))
            && (forall k | k in p.queue :: Theirs(l, p.queue[k]) == Theirs(l, t.queue[k]))
  {
    hide At, QueueAfter, Theirs, IsWaiting, IsDropped, Closed, Stripped, Finished;
    FirstMails(t, l);
    LastMails(t, l);
    MailsThrough(t, At(2, t, l), At(9, t, l), At(10, t, l), At(END, t, l), l);
    forall k | k in t.queue
      ensures var b := Closed(l, t.queue[k]);
              && Theirs(l, b) == Theirs(l, t.queue[k]) && IsWaiting(b) == IsWaiting(t.queue[k])
              && IsDropped(l, b) == IsDropped(l, t.queue[k]) && Theirs(l, Stripped(l, b)) == Theirs(l, b)
    {
      MailKept(l, t.queue[k]);
      StrippedIsAsTheirs(l, Closed(l, t.queue[k]));
    }
  }

  lemma SuppressionsExact(t: Tables, l: Look)
    ensures At(END, t, l).suppressions == SuppressionsLeft(t, l)
  {
    hide At, Do, AllSteps, Changes, SuppressionsAfter, SuppressionsLeft, Theirs, IsWaiting, IsDropped, Unpointed,
      HitsSuppression, IsLifted;
    AtStart(t, l);
    SuppressionsPlaces();
    MailsForSuppressions(t, l);
    var f, p := At(8, t, l), At(29, t, l);
    Stays(InSuppressions, 0, 8, t, l);
    SuppressionsAt(QueuedRows, 8, t, l);
    Stays(InSuppressions, 9, 29, t, l);
    SuppressionsAt(Suppressions, 29, t, l);
    forall a | a in t.suppressions
      ensures Unpointed(f, l, t.suppressions[a]) == Unpointed(t, l, t.suppressions[a])
      ensures HitsSuppression(p, l, a, Unpointed(t, l, t.suppressions[a])) <==> IsLifted(t, l, a, t.suppressions[a])
    {
      SuppressionThrough(t, f, p, l, a, t.suppressions[a]);
    }
    SuppressionsThrough(t, f, At(9, t, l), p, At(30, t, l), l);
    Stays(InSuppressions, 30, END, t, l);
  }

  // ---- The people of requests ----------------------------------------------

  lemma SameStandIns(t: Tables, u: Tables, l: Look)
    requires u.people == t.people && u.sends == t.sends
    ensures PeopleAfter(StandIns, u, l) == PeopleAfter(StandIns, t, l)
  {
    hide Lower;
    forall k
      ensures HitsStandIn(u, l, k) == HitsStandIn(t, l, k)
    {
      SameStandIn(t, u, l, k);
    }
  }

  /** After the stand-ins are put in, who is still the person. */
  lemma StillPersons(t: Tables, v: Tables, l: Look)
    requires IsLook(l) && v.people == PeopleAfter(StandIns, t, l)
    ensures v.people.Keys == t.people.Keys
    ensures forall k | k in t.people ::
              && (IsPersons(l, v.people[k]) <==> IsPersons(l, t.people[k]) && !StandsIn(t, l, k))
              && v.people[k] == (if HitsStandIn(t, l, k) then STAND_IN else t.people[k])
              && (HitsStandIn(t, l, k) ==> IsPersons(l, t.people[k]))
  {
    hide HitsStandIn, Lower;
    Constants(l);
    StandInsReplaceThePerson(t, l);
  }

  lemma SendsThrough(t: Tables, v: Tables, w: Tables, l: Look)
    requires IsLook(l) && v.people == PeopleAfter(StandIns, t, l) && v.sends == t.sends
    requires w.sends == SendsAfter(SendLinks, v, l)
    ensures w.sends == SendsLeft(t, l)
  {
    hide HitsStandIn, Lower, PeopleAfter, IsLook;
    StillPersons(t, v, l);
    assert forall k :: HitsSend(v, l, k) <==> k in t.people && IsPersons(l, v.people[k]);
    assert forall k :: HitsSend(t, l, k) <==> k in t.people && IsPersons(l, t.people[k]);
  }

  lemma EmptiedAre(t: Tables, w: Tables, l: Look)
    requires IsLook(l) && w.people == PeopleAfter(StandIns, t, l)
    requires w.approvals.Keys == t.approvals.Keys && forall a | a in t.approvals ::
             w.approvals[a].list == t.approvals[a].list
    ensures Emptied(w, l) == LeftEmpty(t, l)
  {
    hide HitsStandIn, StandsIn, Lower, PeopleAfter, IsLook;
    StillPersons(t, w, l);
    forall a: Id
      ensures IsEmptied(w, l, a) <==> IsEmptied(t, l, a) && HasNoStandIn(t, l, a)
    {
      EmptiedAlike(t, w, l, a);
    }
    LeftAlike(t, w, l);
  }

  lemma EmptiedAlike(t: Tables, w: Tables, l: Look, a: Id)
    requires w.people.Keys == t.people.Keys
    requires forall k | k in t.people :: IsPersons(l, w.people[k]) <==> IsPersons(l, t.people[k]) && !StandsIn(t, l, k)
    ensures IsEmptied(w, l, a) <==> IsEmptied(t, l, a) && HasNoStandIn(t, l, a)
  {
    hide HitsStandIn, Lower;
    if IsEmptied(w, l, a) {
      forall o | o in t.people && o.0 == a
        ensures IsPersons(l, t.people[o]) && !StandsIn(t, l, o)
      {
        assert IsPersons(l, w.people[o]);
      }
    }
    if IsEmptied(t, l, a) && HasNoStandIn(t, l, a) {
      forall o | o in w.people && o.0 == a
        ensures IsPersons(l, w.people[o])
      {
        assert IsPersons(l, t.people[o]);
      }
    }
  }

  lemma LeftAlike(t: Tables, w: Tables, l: Look)
    requires w.people.Keys == t.people.Keys
    requires w.approvals.Keys == t.approvals.Keys && forall a | a in t.approvals ::
             w.approvals[a].list == t.approvals[a].list
    requires forall a: Id :: IsEmptied(w, l, a) <==> IsEmptied(t, l, a) && HasNoStandIn(t, l, a)
    ensures Emptied(w, l) == LeftEmpty(t, l)
  {
    hide HasNoStandIn, Lower;
    forall k | k in t.people && IsEmptied(w, l, k.0)
      ensures Lower(w.people[k].email) in l.emails
    {
    }
  }

  lemma PeopleThrough(t: Tables, w: Tables, u: Tables, l: Look)
    requires IsLook(l) && w.people == PeopleAfter(StandIns, t, l) && u.people == PeopleAfter(ApprovalPeople, w, l)
    requires Emptied(w, l) == LeftEmpty(t, l)
    ensures u.people == PeopleLeft(t, l)
  {
    hide HitsStandIn, Lower, IsLook, Emptied, LeftEmpty, PeopleAfter;
    StillPersons(t, w, l);
    PeopleAfterOf(w, l);
    assert forall k :: k in u.people <==> k in PeopleLeft(t, l);
  }

  lemma PeopleAfterOf(w: Tables, l: Look)
    ensures var u := PeopleAfter(ApprovalPeople, w, l);
            && (forall k :: k in u <==> k in Emptied(w, l) || (k in w.people && !IsPersons(l, w.people[k])))
            && (forall k | k in u :: u[k] == if k in Emptied(w, l) then STAND_IN else w.people[k])
  {
    hide Lower, Emptied;
  }

  lemma PeopleExact(t: Tables, l: Look)
    requires IsLook(l)
    ensures At(END, t, l).people == PeopleLeft(t, l)
    ensures At(END, t, l).sends == SendsLeft(t, l)
  {
    hide At, Do, AllSteps, Changes, PeopleAfter, SendsAfter, PeopleLeft, SendsLeft, IsLook, Emptied, LeftEmpty;
    AtStart(t, l);
    PeoplePlaces();
    SendsPlaces();
    Stays(InPeople, 0, 26, t, l);
    Stays(InSends, 0, 26, t, l);
    SameStandIns(t, At(26, t, l), l);
    PeopleAt(StandIns, 26, t, l);
    Stays(InSends, 26, 27, t, l);
    SendsAt(SendLinks, 27, t, l);
    Stays(InPeople, 27, 28, t, l);
    PeopleAt(ApprovalPeople, 28, t, l);
    SameLists(28, t, l);
    EmptiedAre(t, At(28, t, l), l);
    SendsThrough(t, At(27, t, l), At(28, t, l), l);
    PeopleThrough(t, At(28, t, l), At(29, t, l), l);
    Stays(InPeople, 29, END, t, l);
    Stays(InSends, 28, END, t, l);
  }

  lemma SameLists(n: nat, t: Tables, l: Look)
    requires IsLook(l) && n <= END
    ensures var u := At(n, t, l);
            u.approvals.Keys == t.approvals.Keys && forall a | a in t.approvals ::
                u.approvals[a].list == t.approvals[a].list
  {
    hide At, AllSteps, IsLook, LessQueue, LessTasks, LessLinks, LessEvents, LessPeople, LessSends,
      LessApprovalEvents, LessSources, LessSourcePeople, LessSuppressions, LessReactivations, LessInbox, LessColumns,
      LessRecords, LessAddresses;
    LessensSince(0, n, t, l);
    AtStart(t, l);
  }

  // ---- The whole -----------------------------------------------------------

  lemma LessExact(t: Tables, u: Tables, l: Look)
    requires Lessens(t, u, l) && IsErased(u, l)
    ensures u.recipients == RecipientsLeft(t, l)
    ensures u.unsubscribes == UnsubscribesLeft(t, l)
    ensures u.sourcePeople == SourcePeopleLeft(t, l)
    ensures u.versions == ActorsLeft(t.versions, l)
    ensures u.sensitiveChanges == ActorsLeft(t.sensitiveChanges, l)
    ensures u.contentViews == ActorsLeft(t.contentViews, l)
    ensures u.removals == RemovalsLeft(t, l)
    ensures u.templateArchivers == ArchiversLeft(t.templateArchivers, l)
    ensures u.listArchivers == ArchiversLeft(t.listArchivers, l)
    ensures u.approvals == ApprovalsLeft(t, l)
    ensures u.reactivations == ReactivationsLeft(t, l)
    ensures u.inbox == InboxLeft(t, l)
  {
    hide Idle, MailInFlight, LessQueue, LessTasks, LessLinks, LessEvents, LessApprovals, LessPeople, LessSends,
      LessApprovalEvents, LessSources, LessSourcePeople, LessSuppressions, LessReactivations, LessInbox, LessColumns,
      LessRecords, LessAddresses, ActorsLeft, ApprovalEventsLeft, ApprovalsLeft, ArchiversLeft, EventsLeft,
      InboxLeft, LinksLeft, MembershipsLeft, PeopleLeft, QueueLeft, ReactivationsLeft, RecipientsLeft, RemovalsLeft,
      SendsLeft, SourcePeopleLeft, SourcesLeft, SuppressionsLeft, TasksLeft, UnsubscribesLeft;
    assert Idle(Recipients, u, l) && Idle(Unsubscribes, u, l);
    ListsExact(t, u, l);
    assert Idle(SourcePeople, u, l);
    SourcePeopleExact(t, u, l);
    assert Idle(Authors, u, l) && Idle(SensitiveActors, u, l) && Idle(ViewActors, u, l);
    ActorsExact(t, u, l);
    assert Idle(Removers, u, l) && Idle(TemplateArchivers, u, l) && Idle(ListArchivers, u, l);
    ColumnsExact(t, u, l);
    assert Idle(ApprovalVariables, u, l) && Idle(Submitters, u, l);
    ApprovalsExact(t, u, l);
    assert Idle(Reasons, u, l) && Idle(Reactivators, u, l);
    ReactivationsExact(t, u, l);
    assert Idle(OwnInbox, u, l) && Idle(NamingInbox, u, l);
    InboxExact(t, u, l);
  }

  /** However its statements follow on each other, a completed erasure leaves
      every table exactly as the tables before it say, row by row. */
  lemma ErasureIsExact(db: Db, c: Command, at: int)
    requires IsCommand(c) && c.request !in db.receipts && Erase(db, c, at).1.Completed?
    ensures Erase(db, c, at).0.tables == Erased(db.tables, LookOf(db.tables, c))
  {
    hide Do, DoAll, CountAll, LookOf, MailInFlight, At, AllSteps, IsLook, IsCommand, Idle, Lessens, ActorsLeft,
      ApprovalEventsLeft, ApprovalsLeft, ArchiversLeft, EventsLeft, InboxLeft, LinksLeft, MembershipsLeft,
      PeopleLeft, QueueLeft, ReactivationsLeft, RecipientsLeft, RemovalsLeft, SendsLeft, SourcePeopleLeft,
      SourcesLeft, SuppressionsLeft, TasksLeft, UnsubscribesLeft;
    var t, l := db.tables, LookOf(db.tables, c);
    CommandLooks(t, c);
    ErasedAt(t, l);
    var u := Erase(db, c, at).0.tables;
    assert u == At(END, t, l);
    CompletedErases(db, c, at);
    LessExact(t, u, l);
    MembershipsExact(t, l);
    QueueExact(t, l);
    TasksExact(t, l);
    LinksExact(t, l);
    EventsExact(t, l);
    PeopleExact(t, l);
    ApprovalEventsExact(t, l);
    SourcesExact(t, l);
    SuppressionsExact(t, l);
  }
}
