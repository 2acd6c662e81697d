// What a receipt's counts of clearings say: how many rows lost their text, their
// use or their actor.
module ErasureTallies {
  import opened Options
  import opened Text
  import opened Erasure
  import opened ErasureProofs
  import opened ErasureExact
  import opened ErasureResults
  import opened ErasureNames
  import opened ErasureCompletes
  import opened ErasurePlainly
  import opened ErasureRows

  // ---- Rows that hold what is cleared --------------------------------------

  function Marked<V>(m: map<Id, V>, held: V -> bool): (r: set<Id>) {
    set k | k in m && held(m[k])
  }

  lemma Drop<V>(m: map<Id, V>, n: map<Id, V>, held: V -> bool, hit: set<Id>)
    requires forall k | k in hit :: k in m && held(m[k])
    requires forall k :: k in n && held(n[k]) <==> k in m && held(m[k]) && k !in hit
    ensures |Marked(n, held)| + |hit| == |Marked(m, held)|
  {
    assert Marked(m, held) == Marked(n, held) + hit && Marked(n, held) !! hit;
  }

  lemma SubjectIsReplaced(l: Look)
    requires IsLook(l)
    ensures l.subject != DELETED_SUBJECT
  {
  }

  lemma ApprovalsOf(step: Step, t: Tables, l: Look)
    ensures Do(step, t, l).approvals == ApprovalsAfter(step, t, l)
  {
    hide ApprovalsAfter;
  }

  lemma ReactivationsOf(step: Step, t: Tables, l: Look)
    ensures Do(step, t, l).reactivations == ReactivationsAfter(step, t, l)
  {
    hide ReactivationsAfter;
  }

  lemma RecordsOf(step: Step, t: Tables, l: Look)
    ensures Do(step, t, l).versions == VersionsAfter(step, t, l)
    ensures Do(step, t, l).sensitiveChanges == SensitiveChangesAfter(step, t, l)
    ensures Do(step, t, l).contentViews == ContentViewsAfter(step, t, l)
  {
    hide VersionsAfter, SensitiveChangesAfter, ContentViewsAfter;
  }

  lemma ColumnsOf(step: Step, t: Tables, l: Look)
    ensures Do(step, t, l).removals == RemovalsAfter(step, t, l)
    ensures Do(step, t, l).templateArchivers == TemplateArchiversAfter(step, t, l)
    ensures Do(step, t, l).listArchivers == ListArchiversAfter(step, t, l)
  {
    hide RemovalsAfter, TemplateArchiversAfter, ListArchiversAfter;
  }

  lemma ClearedIsNoOnes(l: Look, q: QueueRow)
    requires IsLook(l)
    ensures !Theirs(l, Cleared(q)) && !MailNames(l, Cleared(q)) && Cleared(q).status == q.status
    ensures !MailNames(l, q.(subject := "", body := "", html := None))
  {
    hide IsLook, Names;
    Constants(l);
    EmptyIsNoOnes(l);
  }

  lemma EmptyIsNoOnes(l: Look)
    requires IsLook(l)
    ensures "" !in l.emails
  {
  }

  lemma SameMailOtherwise(l: Look, q: QueueRow)
    ensures Theirs(l, q.(token := None, tokenClosed := true)) == Theirs(l, q)
    ensures MailNames(l, q.(token := None, tokenClosed := true)) == MailNames(l, q)
    ensures Theirs(l, q.(subject := "", body := "", html := None)) == Theirs(l, q)
  {
    hide Names, Lower;
  }

  function IsInUse(): (r: FormSource -> bool) {
    (s: FormSource) => !s.invalidated
  }

  function HasVariables(): (r: Task -> bool) {
    (x: Task) => x.variables != NO_VARIABLES
  }

  function HasRequestVariables(): (r: Approval -> bool) {
    (a: Approval) => a.variables != NO_VARIABLES
  }

  function HasChanges(): (r: ApprovalEvent -> bool) {
    (e: ApprovalEvent) => e.changes.Some?
  }

  function HasNote(): (r: ApprovalEvent -> bool) {
    (e: ApprovalEvent) => e.note.Some? && !(e.rejected && e.note.value == ERASED_NOTE)
  }

  function HasReason(): (r: Reactivation -> bool) {
    (r: Reactivation) => r.reason.Some? && r.reason.value != ERASED_NOTE
  }

  function NamesThem(l: Look): (r: QueueRow -> bool) {
    (q: QueueRow) => HitsBody(l, q)
  }

  function IsTheirMail(l: Look): (r: QueueRow -> bool) {
    (q: QueueRow) => IsFinal(q) && Theirs(l, q)
  }

  function IsSender(l: Look): (r: Task -> bool) {
    (x: Task) => x.sentBy == l.subject
  }

  function IsSubmitter(l: Look): (r: Approval -> bool) {
    (a: Approval) => a.submitter == l.subject
  }

  function IsDecider(l: Look): (r: ApprovalEvent -> bool) {
    (e: ApprovalEvent) => e.actor == Some(l.subject)
  }

  function IsOwner(l: Look): (r: FormSource -> bool) {
    (s: FormSource) => s.owner == l.subject
  }

  function IsReactivator(l: Look): (r: Reactivation -> bool) {
    (r: Reactivation) => r.actor == Some(l.subject)
  }

  function IsActor(l: Look): (r: Actor -> bool) {
    (a: Actor) => a.sub == Some(l.subject)
  }

  function IsSubject(l: Look): (r: string -> bool) {
    (s: string) => s == l.subject
  }

  function IsArchiver(l: Look): (r: Option<string> -> bool) {
    (s: Option<string>) => s == Some(l.subject)
  }

  function HitUse(t: Tables, l: Look): (r: set<Id>) {
    set k | k in t.sources && SourceConcerns(t, l, k, t.sources[k]) && !t.sources[k].invalidated
  }

  lemma UseRows(t: Tables, l: Look)
    ensures Rows(InvalidateSources, t, l) == |HitUse(t, l)|
  {
    hide Names, Theirs, MailNames, SourceConcerns, Alone, HitsVariables, HitsNote, HitsReason, HitsBody;
    var hit := set k | k in t.sources && SourceConcerns(t, l, k, t.sources[k]) && !t.sources[k].invalidated;
    assert hit == HitUse(t, l);
  }

  lemma UseDrop(step: Step, t: Tables, l: Look)
    requires IsLook(l)
    ensures |Marked(Do(step, t, l).sources, IsInUse())|
            + (if step == InvalidateSources then Rows(InvalidateSources, t, l) else 0)
            == |Marked(t.sources, IsInUse())|
  {
    hide Do, Rows, IsLook, Names, Theirs, MailNames, SourceConcerns, Alone, Cleared;
    SourcesOf(step, t, l);
    UseRows(t, l);
    SubjectIsReplaced(l);
    Drop(t.sources, SourcesAfter(step, t, l), IsInUse(), if step == InvalidateSources then HitUse(t, l) else {});
  }

  function HitSendVariables(t: Tables, l: Look): (r: set<Id>) {
    set k | k in t.tasks && HitsVariables(t, l, k, t.tasks[k])
  }

  lemma SendVariablesRows(t: Tables, l: Look)
    ensures Rows(SendVariables, t, l) == |HitSendVariables(t, l)|
  {
    hide Names, Theirs, MailNames, SourceConcerns, Alone, HitsVariables, HitsNote, HitsReason, HitsBody;
    var hit := set k | k in t.tasks && HitsVariables(t, l, k, t.tasks[k]);
    assert hit == HitSendVariables(t, l);
  }

  lemma SendVariablesDrop(step: Step, t: Tables, l: Look)
    requires IsLook(l)
    ensures |Marked(Do(step, t, l).tasks, HasVariables())|
            + (if step == SendVariables then Rows(SendVariables, t, l) else 0)
            == |Marked(t.tasks, HasVariables())|
  {
    hide Do, Rows, IsLook, Names, Theirs, MailNames, SourceConcerns, Alone, Cleared;
    TasksOf(step, t, l);
    SendVariablesRows(t, l);
    SubjectIsReplaced(l);
    Drop(t.tasks, TasksAfter(step, t, l), HasVariables(), if step == SendVariables then HitSendVariables(t, l) else {});
  }

  function HitRequestVariables(t: Tables, l: Look): (r: set<Id>) {
    set k | k in t.approvals && t.approvals[k].variables != NO_VARIABLES && Names(l, t.approvals[k].variables)
  }

  lemma RequestVariablesRows(t: Tables, l: Look)
    ensures Rows(ApprovalVariables, t, l) == |HitRequestVariables(t, l)|
  {
    hide Names, Theirs, MailNames, SourceConcerns, Alone, HitsVariables, HitsNote, HitsReason, HitsBody;
    var hit := set k | k in t.approvals && t.approvals[k].variables != NO_VARIABLES
        && Names(l, t.approvals[k].variables);
    assert hit == HitRequestVariables(t, l);
  }

  lemma RequestVariablesDrop(step: Step, t: Tables, l: Look)
    requires IsLook(l)
    ensures |Marked(Do(step, t, l).approvals, HasRequestVariables())|
            + (if step == ApprovalVariables then Rows(ApprovalVariables, t, l) else 0)
            == |Marked(t.approvals, HasRequestVariables())|
  {
    hide Do, Rows, IsLook, Names, Theirs, MailNames, SourceConcerns, Alone, Cleared;
    ApprovalsOf(step, t, l);
    RequestVariablesRows(t, l);
    SubjectIsReplaced(l);
    Drop(t.approvals, ApprovalsAfter(step, t, l), HasRequestVariables(),
         if step == ApprovalVariables then HitRequestVariables(t, l) else {});
  }

  function HitChanges(t: Tables, l: Look): (r: set<Id>) {
    set k | k in t.approvalEvents && t.approvalEvents[k].changes.Some? && Names(l, t.approvalEvents[k].changes.value)
  }

  lemma ChangesRows(t: Tables, l: Look)
    ensures Rows(ApprovalChanges, t, l) == |HitChanges(t, l)|
  {
    hide Names, Theirs, MailNames, SourceConcerns, Alone, HitsVariables, HitsNote, HitsReason, HitsBody;
    var hit := set k | k in t.approvalEvents && t.approvalEvents[k].changes.Some?
        && Names(l, t.approvalEvents[k].changes.value);
    assert hit == HitChanges(t, l);
  }

  lemma ChangesDrop(step: Step, t: Tables, l: Look)
    requires IsLook(l)
    ensures |Marked(Do(step, t, l).approvalEvents, HasChanges())|
            + (if step == ApprovalChanges then Rows(ApprovalChanges, t, l) else 0)
            == |Marked(t.approvalEvents, HasChanges())|
  {
    hide Do, Rows, IsLook, Names, Theirs, MailNames, SourceConcerns, Alone, Cleared;
    ApprovalEventsOf(step, t, l);
    ChangesRows(t, l);
    SubjectIsReplaced(l);
    Drop(t.approvalEvents, ApprovalEventsAfter(step, t, l), HasChanges(),
         if step == ApprovalChanges then HitChanges(t, l) else {});
  }

  function HitNotes(t: Tables, l: Look): (r: set<Id>) {
    set k | k in t.approvalEvents && HitsNote(l, t.approvalEvents[k])
  }

  lemma NotesRows(t: Tables, l: Look)
    ensures Rows(ApprovalNotes, t, l) == |HitNotes(t, l)|
  {
    hide Names, Theirs, MailNames, SourceConcerns, Alone, HitsVariables, HitsNote, HitsReason, HitsBody;
    var hit := set k | k in t.approvalEvents && HitsNote(l, t.approvalEvents[k]);
    assert hit == HitNotes(t, l);
  }

  lemma NotesDrop(step: Step, t: Tables, l: Look)
    requires IsLook(l)
    ensures |Marked(Do(step, t, l).approvalEvents, HasNote())|
            + (if step == ApprovalNotes then Rows(ApprovalNotes, t, l) else 0)
            == |Marked(t.approvalEvents, HasNote())|
  {
    hide Do, Rows, IsLook, Names, Theirs, MailNames, SourceConcerns, Alone, Cleared;
    ApprovalEventsOf(step, t, l);
    NotesRows(t, l);
    SubjectIsReplaced(l);
    if step == ApprovalNotes {
      Drop(t.approvalEvents, ApprovalEventsAfter(step, t, l), HasNote(), HitNotes(t, l));
    } else {
      Drop(t.approvalEvents, ApprovalEventsAfter(step, t, l), HasNote(), {});
    }
  }

  function HitReasons(t: Tables, l: Look): (r: set<Id>) {
    set k | k in t.reactivations && HitsReason(l, t.reactivations[k])
  }

  lemma ReasonsRows(t: Tables, l: Look)
    ensures Rows(Reasons, t, l) == |HitReasons(t, l)|
  {
    hide Names, Theirs, MailNames, SourceConcerns, Alone, HitsVariables, HitsNote, HitsReason, HitsBody;
    var hit := set k | k in t.reactivations && HitsReason(l, t.reactivations[k]);
    assert hit == HitReasons(t, l);
  }

  lemma ReasonsDrop(step: Step, t: Tables, l: Look)
    requires IsLook(l)
    ensures |Marked(Do(step, t, l).reactivations, HasReason())| + (if step == Reasons then Rows(Reasons, t, l) else 0)
            == |Marked(t.reactivations, HasReason())|
  {
    hide Do, Rows, IsLook, Names, Theirs, MailNames, SourceConcerns, Alone, Cleared;
    ReactivationsOf(step, t, l);
    ReasonsRows(t, l);
    SubjectIsReplaced(l);
    Drop(t.reactivations, ReactivationsAfter(step, t, l), HasReason(),
         if step == Reasons then HitReasons(t, l) else {});
  }

  lemma BodiesRows(t: Tables, l: Look)
    ensures Rows(NamingBodies, t, l) == |Marked(t.queue, NamesThem(l))|
  {
    hide Names, Theirs, MailNames, SourceConcerns, Alone, HitsVariables, HitsNote, HitsReason, HitsBody;
    var hit := set k | k in t.queue && HitsBody(l, t.queue[k]);
    assert hit == Marked(t.queue, NamesThem(l));
  }

  lemma BodiesDrop(step: Step, t: Tables, l: Look)
    requires IsLook(l)
    ensures |Marked(Do(step, t, l).queue, NamesThem(l))|
            + (if step == NamingBodies then Rows(NamingBodies, t, l) else 0)
            == |Marked(t.queue, NamesThem(l))|
  {
    hide Do, Rows, IsLook, Names, Theirs, MailNames, SourceConcerns, Alone, Cleared;
    QueueOf(step, t, l);
    BodiesRows(t, l);
    SubjectIsReplaced(l);
    forall k
      ensures k in QueueAfter(step, t, l) && NamesThem(l)(QueueAfter(step, t, l)[k])
              <==> k in t.queue && NamesThem(l)(t.queue[k])
                   && !(step == NamingBodies && k in Marked(t.queue, NamesThem(l)))
    {
      if k in t.queue {
        ClearedIsNoOnes(l, t.queue[k]);
        SameMailOtherwise(l, t.queue[k]);
      }
    }
    Drop(t.queue, QueueAfter(step, t, l), NamesThem(l),
         if step == NamingBodies then Marked(t.queue, NamesThem(l)) else {});
  }

  lemma OwnMailRows(t: Tables, l: Look)
    ensures Rows(OwnMail, t, l) == |Marked(t.queue, IsTheirMail(l))|
  {
    hide Names, Theirs, MailNames, SourceConcerns, Alone, HitsVariables, HitsNote, HitsReason, HitsBody;
    var hit := set k | k in t.queue && IsFinal(t.queue[k]) && Theirs(l, t.queue[k]);
    assert hit == Marked(t.queue, IsTheirMail(l));
  }

  lemma OwnMailDrop(step: Step, t: Tables, l: Look)
    requires IsLook(l)
    ensures |Marked(Do(step, t, l).queue, IsTheirMail(l))| + (if step == OwnMail then Rows(OwnMail, t, l) else 0)
            == |Marked(t.queue, IsTheirMail(l))|
  {
    hide Do, Rows, IsLook, Names, Theirs, MailNames, SourceConcerns, Alone, Cleared;
    QueueOf(step, t, l);
    OwnMailRows(t, l);
    SubjectIsReplaced(l);
    forall k
      ensures k in QueueAfter(step, t, l) && IsTheirMail(l)(QueueAfter(step, t, l)[k])
              <==> k in t.queue && IsTheirMail(l)(t.queue[k])
                   && !(step == OwnMail && k in Marked(t.queue, IsTheirMail(l)))
    {
      if k in t.queue {
        ClearedIsNoOnes(l, t.queue[k]);
        SameMailOtherwise(l, t.queue[k]);
      }
    }
    Drop(t.queue, QueueAfter(step, t, l), IsTheirMail(l),
         if step == OwnMail then Marked(t.queue, IsTheirMail(l)) else {});
  }

  lemma SendersRows(t: Tables, l: Look)
    ensures Rows(Senders, t, l) == |Marked(t.tasks, IsSender(l))|
  {
    hide Names, Theirs, MailNames, SourceConcerns, Alone, HitsVariables, HitsNote, HitsReason, HitsBody;
    var hit := set k | k in t.tasks && t.tasks[k].sentBy == l.subject;
    assert hit == Marked(t.tasks, IsSender(l));
  }

  lemma SendersDrop(step: Step, t: Tables, l: Look)
    requires IsLook(l)
    ensures |Marked(Do(step, t, l).tasks, IsSender(l))| + (if step == Senders then Rows(Senders, t, l) else 0)
            == |Marked(t.tasks, IsSender(l))|
  {
    hide Do, Rows, IsLook, Names, Theirs, MailNames, SourceConcerns, Alone, Cleared;
    TasksOf(step, t, l);
    SendersRows(t, l);
    SubjectIsReplaced(l);
    Drop(t.tasks, TasksAfter(step, t, l), IsSender(l), if step == Senders then Marked(t.tasks, IsSender(l)) else {});
  }

  lemma SubmittersRows(t: Tables, l: Look)
    ensures Rows(Submitters, t, l) == |Marked(t.approvals, IsSubmitter(l))|
  {
    hide Names, Theirs, MailNames, SourceConcerns, Alone, HitsVariables, HitsNote, HitsReason, HitsBody;
    var hit := set k | k in t.approvals && t.approvals[k].submitter == l.subject;
    assert hit == Marked(t.approvals, IsSubmitter(l));
  }

  lemma SubmittersDrop(step: Step, t: Tables, l: Look)
    requires IsLook(l)
    ensures |Marked(Do(step, t, l).approvals, IsSubmitter(l))|
            + (if step == Submitters then Rows(Submitters, t, l) else 0)
            == |Marked(t.approvals, IsSubmitter(l))|
  {
    hide Do, Rows, IsLook, Names, Theirs, MailNames, SourceConcerns, Alone, Cleared;
    ApprovalsOf(step, t, l);
    SubmittersRows(t, l);
    SubjectIsReplaced(l);
    Drop(t.approvals, ApprovalsAfter(step, t, l), IsSubmitter(l),
         if step == Submitters then Marked(t.approvals, IsSubmitter(l)) else {});
  }

  lemma DecidersRows(t: Tables, l: Look)
    ensures Rows(ApprovalActors, t, l) == |Marked(t.approvalEvents, IsDecider(l))|
  {
    hide Names, Theirs, MailNames, SourceConcerns, Alone, HitsVariables, HitsNote, HitsReason, HitsBody;
    var hit := set k | k in t.approvalEvents && t.approvalEvents[k].actor == Some(l.subject);
    assert hit == Marked(t.approvalEvents, IsDecider(l));
  }

  lemma DecidersDrop(step: Step, t: Tables, l: Look)
    requires IsLook(l)
    ensures |Marked(Do(step, t, l).approvalEvents, IsDecider(l))|
            + (if step == ApprovalActors then Rows(ApprovalActors, t, l) else 0)
            == |Marked(t.approvalEvents, IsDecider(l))|
  {
    hide Do, Rows, IsLook, Names, Theirs, MailNames, SourceConcerns, Alone, Cleared;
    ApprovalEventsOf(step, t, l);
    DecidersRows(t, l);
    SubjectIsReplaced(l);
    Drop(t.approvalEvents, ApprovalEventsAfter(step, t, l), IsDecider(l),
         if step == ApprovalActors then Marked(t.approvalEvents, IsDecider(l)) else {});
  }

  lemma OwnersRows(t: Tables, l: Look)
    ensures Rows(SourceOwners, t, l) == |Marked(t.sources, IsOwner(l))|
  {
    hide Names, Theirs, MailNames, SourceConcerns, Alone, HitsVariables, HitsNote, HitsReason, HitsBody;
    var hit := set k | k in t.sources && t.sources[k].owner == l.subject;
    assert hit == Marked(t.sources, IsOwner(l));
  }

  lemma OwnersDrop(step: Step, t: Tables, l: Look)
    requires IsLook(l)
    ensures |Marked(Do(step, t, l).sources, IsOwner(l))|
            + (if step == SourceOwners then Rows(SourceOwners, t, l) else 0)
            == |Marked(t.sources, IsOwner(l))|
  {
    hide Do, Rows, IsLook, Names, Theirs, MailNames, SourceConcerns, Alone, Cleared;
    SourcesOf(step, t, l);
    OwnersRows(t, l);
    SubjectIsReplaced(l);
    if step == SourceOwners {
      Drop(t.sources, SourcesAfter(step, t, l), IsOwner(l), Marked(t.sources, IsOwner(l)));
    } else {
      Drop(t.sources, SourcesAfter(step, t, l), IsOwner(l), {});
    }
  }

  lemma ReactivatorsRows(t: Tables, l: Look)
    ensures Rows(Reactivators, t, l) == |Marked(t.reactivations, IsReactivator(l))|
  {
    hide Names, Theirs, MailNames, SourceConcerns, Alone, HitsVariables, HitsNote, HitsReason, HitsBody;
    var hit := set k | k in t.reactivations && t.reactivations[k].actor == Some(l.subject);
    assert hit == Marked(t.reactivations, IsReactivator(l));
  }

  lemma ReactivatorsDrop(step: Step, t: Tables, l: Look)
    requires IsLook(l)
    ensures |Marked(Do(step, t, l).reactivations, IsReactivator(l))|
            + (if step == Reactivators then Rows(Reactivators, t, l) else 0)
            == |Marked(t.reactivations, IsReactivator(l))|
  {
    hide Do, Rows, IsLook, Names, Theirs, MailNames, SourceConcerns, Alone, Cleared;
    ReactivationsOf(step, t, l);
    ReactivatorsRows(t, l);
    SubjectIsReplaced(l);
    Drop(t.reactivations, ReactivationsAfter(step, t, l), IsReactivator(l),
         if step == Reactivators then Marked(t.reactivations, IsReactivator(l)) else {});
  }

  lemma AuthorsRows(t: Tables, l: Look)
    ensures Rows(Authors, t, l) == |Marked(t.versions, IsActor(l))|
  {
    hide Names, Theirs, MailNames, SourceConcerns, Alone, HitsVariables, HitsNote, HitsReason, HitsBody;
    var hit := set k | k in t.versions && t.versions[k].sub == Some(l.subject);
    assert hit == Marked(t.versions, IsActor(l));
  }

  lemma AuthorsDrop(step: Step, t: Tables, l: Look)
    requires IsLook(l)
    ensures |Marked(Do(step, t, l).versions, IsActor(l))| + (if step == Authors then Rows(Authors, t, l) else 0)
            == |Marked(t.versions, IsActor(l))|
  {
    hide Do, Rows, IsLook, Names, Theirs, MailNames, SourceConcerns, Alone, Cleared;
    RecordsOf(step, t, l);
    AuthorsRows(t, l);
    SubjectIsReplaced(l);
    Drop(t.versions, VersionsAfter(step, t, l), IsActor(l),
         if step == Authors then Marked(t.versions, IsActor(l)) else {});
  }

  lemma ChangersRows(t: Tables, l: Look)
    ensures Rows(SensitiveActors, t, l) == |Marked(t.sensitiveChanges, IsActor(l))|
  {
    hide Names, Theirs, MailNames, SourceConcerns, Alone, HitsVariables, HitsNote, HitsReason, HitsBody;
    var hit := set k | k in t.sensitiveChanges && t.sensitiveChanges[k].sub == Some(l.subject);
    assert hit == Marked(t.sensitiveChanges, IsActor(l));
  }

  lemma ChangersDrop(step: Step, t: Tables, l: Look)
    requires IsLook(l)
    ensures |Marked(Do(step, t, l).sensitiveChanges, IsActor(l))|
            + (if step == SensitiveActors then Rows(SensitiveActors, t, l) else 0)
            == |Marked(t.sensitiveChanges, IsActor(l))|
  {
    hide Do, Rows, IsLook, Names, Theirs, MailNames, SourceConcerns, Alone, Cleared;
    RecordsOf(step, t, l);
    ChangersRows(t, l);
    SubjectIsReplaced(l);
    Drop(t.sensitiveChanges, SensitiveChangesAfter(step, t, l), IsActor(l),
         if step == SensitiveActors then Marked(t.sensitiveChanges, IsActor(l)) else {});
  }

  lemma ViewersRows(t: Tables, l: Look)
    ensures Rows(ViewActors, t, l) == |Marked(t.contentViews, IsActor(l))|
  {
    hide Names, Theirs, MailNames, SourceConcerns, Alone, HitsVariables, HitsNote, HitsReason, HitsBody;
    var hit := set k | k in t.contentViews && t.contentViews[k].sub == Some(l.subject);
    assert hit == Marked(t.contentViews, IsActor(l));
  }

  lemma ViewersDrop(step: Step, t: Tables, l: Look)
    requires IsLook(l)
    ensures |Marked(Do(step, t, l).contentViews, IsActor(l))|
            + (if step == ViewActors then Rows(ViewActors, t, l) else 0)
            == |Marked(t.contentViews, IsActor(l))|
  {
    hide Do, Rows, IsLook, Names, Theirs, MailNames, SourceConcerns, Alone, Cleared;
    RecordsOf(step, t, l);
    ViewersRows(t, l);
    SubjectIsReplaced(l);
    Drop(t.contentViews, ContentViewsAfter(step, t, l), IsActor(l),
         if step == ViewActors then Marked(t.contentViews, IsActor(l)) else {});
  }

  lemma RemoversRows(t: Tables, l: Look)
    ensures Rows(Removers, t, l) == |Marked(t.removals, IsSubject(l))|
  {
    hide Names, Theirs, MailNames, SourceConcerns, Alone, HitsVariables, HitsNote, HitsReason, HitsBody;
    var hit := set k | k in t.removals && t.removals[k] == l.subject;
    assert hit == Marked(t.removals, IsSubject(l));
  }

  lemma RemoversDrop(step: Step, t: Tables, l: Look)
    requires IsLook(l)
    ensures |Marked(Do(step, t, l).removals, IsSubject(l))| + (if step == Removers then Rows(Removers, t, l) else 0)
            == |Marked(t.removals, IsSubject(l))|
  {
    hide Do, Rows, IsLook, Names, Theirs, MailNames, SourceConcerns, Alone, Cleared;
    ColumnsOf(step, t, l);
    RemoversRows(t, l);
    SubjectIsReplaced(l);
    Drop(t.removals, RemovalsAfter(step, t, l), IsSubject(l),
         if step == Removers then Marked(t.removals, IsSubject(l)) else {});
  }

  lemma TemplateArchiversRows(t: Tables, l: Look)
    ensures Rows(TemplateArchivers, t, l) == |Marked(t.templateArchivers, IsArchiver(l))|
  {
    hide Names, Theirs, MailNames, SourceConcerns, Alone, HitsVariables, HitsNote, HitsReason, HitsBody;
    var hit := set k | k in t.templateArchivers && t.templateArchivers[k] == Some(l.subject);
    assert hit == Marked(t.templateArchivers, IsArchiver(l));
  }

  lemma TemplateArchiversDrop(step: Step, t: Tables, l: Look)
    requires IsLook(l)
    ensures |Marked(Do(step, t, l).templateArchivers, IsArchiver(l))|
            + (if step == TemplateArchivers then Rows(TemplateArchivers, t, l) else 0)
            == |Marked(t.templateArchivers, IsArchiver(l))|
  {
    hide Do, Rows, IsLook, Names, Theirs, MailNames, SourceConcerns, Alone, Cleared;
    ColumnsOf(step, t, l);
    TemplateArchiversRows(t, l);
    SubjectIsReplaced(l);
    Drop(t.templateArchivers, TemplateArchiversAfter(step, t, l), IsArchiver(l),
         if step == TemplateArchivers then Marked(t.templateArchivers, IsArchiver(l)) else {});
  }

  lemma ListArchiversRows(t: Tables, l: Look)
    ensures Rows(ListArchivers, t, l) == |Marked(t.listArchivers, IsArchiver(l))|
  {
    hide Names, Theirs, MailNames, SourceConcerns, Alone, HitsVariables, HitsNote, HitsReason, HitsBody;
    var hit := set k | k in t.listArchivers && t.listArchivers[k] == Some(l.subject);
    assert hit == Marked(t.listArchivers, IsArchiver(l));
  }

  lemma ListArchiversDrop(step: Step, t: Tables, l: Look)
    requires IsLook(l)
    ensures |Marked(Do(step, t, l).listArchivers, IsArchiver(l))|
            + (if step == ListArchivers then Rows(ListArchivers, t, l) else 0)
            == |Marked(t.listArchivers, IsArchiver(l))|
  {
    hide Do, Rows, IsLook, Names, Theirs, MailNames, SourceConcerns, Alone, Cleared;
    ColumnsOf(step, t, l);
    ListArchiversRows(t, l);
    SubjectIsReplaced(l);
    Drop(t.listArchivers, ListArchiversAfter(step, t, l), IsArchiver(l),
         if step == ListArchivers then Marked(t.listArchivers, IsArchiver(l)) else {});
  }

  // ---- What is counted -----------------------------------------------------

  /** How many rows still hold what a count counts the clearing of. */
  function Uncleared(t: Tables, l: Look, key: CountKey): (n: nat) {
    match key
    case SourcesInvalidated => |Marked(t.sources, IsInUse())|
    case VariablesCleared => |Marked(t.tasks, HasVariables())| + |Marked(t.approvals, HasRequestVariables())|
    case BodiesCleared => |Marked(t.queue, NamesThem(l))|
    case ChangesCleared => |Marked(t.approvalEvents, HasChanges())|
    case NotesCleared => |Marked(t.approvalEvents, HasNote())| + |Marked(t.reactivations, HasReason())|
    case QueueRowsCleared => |Marked(t.queue, IsTheirMail(l))|
    case ActorsReplaced => Acting(t, l)
    case _ => 0
  }

  /** How many columns name the person as who did something. */
  function Acting(t: Tables, l: Look): (n: nat) {
    ActingOnRequests(t, l) + ActingOnRecords(t, l) + ActingInColumns(t, l)
  }

  function ActingOnRequests(t: Tables, l: Look): (n: nat) {
    |Marked(t.tasks, IsSender(l))|
    + |Marked(t.approvals, IsSubmitter(l))|
    + |Marked(t.approvalEvents, IsDecider(l))|
    + |Marked(t.sources, IsOwner(l))|
    + |Marked(t.reactivations, IsReactivator(l))|
  }

  function ActingOnRecords(t: Tables, l: Look): (n: nat) {
    |Marked(t.versions, IsActor(l))|
    + |Marked(t.sensitiveChanges, IsActor(l))|
    + |Marked(t.contentViews, IsActor(l))|
  }

  function ActingInColumns(t: Tables, l: Look): (n: nat) {
    |Marked(t.removals, IsSubject(l))|
    + |Marked(t.templateArchivers, IsArchiver(l))|
    + |Marked(t.listArchivers, IsArchiver(l))|
  }

  predicate IsClearing(key: CountKey) {
    match key
    case SourcesInvalidated | VariablesCleared | BodiesCleared | ChangesCleared | NotesCleared | QueueRowsCleared
       | ActorsReplaced => true
    case _ => false
  }

  lemma TextsCounted(step: Step)
    ensures CountOf(step) == Some(SourcesInvalidated) <==> step == InvalidateSources
    ensures CountOf(step) == Some(VariablesCleared) <==> step == SendVariables || step == ApprovalVariables
    ensures CountOf(step) == Some(BodiesCleared) <==> step == NamingBodies
    ensures CountOf(step) == Some(ChangesCleared) <==> step == ApprovalChanges
    ensures CountOf(step) == Some(NotesCleared) <==> step == ApprovalNotes || step == Reasons
    ensures CountOf(step) == Some(QueueRowsCleared) <==> step == OwnMail
  {
  }

  lemma TextsDrop(step: Step, t: Tables, l: Look, key: CountKey)
    requires IsLook(l) && IsClearing(key) && key != ActorsReplaced
    ensures Uncleared(Do(step, t, l), l, key) + (if CountOf(step) == Some(key) then Rows(step, t, l) else 0)
            == Uncleared(t, l, key)
  {
    hide Do, Rows, IsLook, Marked, CountOf;
    TextsCounted(step);
    match key {
      case SourcesInvalidated =>
        UseDrop(step, t, l);
      case VariablesCleared =>
        SendVariablesDrop(step, t, l);
        RequestVariablesDrop(step, t, l);
      case BodiesCleared =>
        BodiesDrop(step, t, l);
      case ChangesCleared =>
        ChangesDrop(step, t, l);
      case NotesCleared =>
        NotesDrop(step, t, l);
        ReasonsDrop(step, t, l);
      case QueueRowsCleared =>
        OwnMailDrop(step, t, l);
    }
  }

  predicate ActsOnRequests(step: Step) {
    step == Senders || step == Submitters || step == ApprovalActors || step == SourceOwners || step == Reactivators
  }

  lemma OnRequestsDrop(step: Step, t: Tables, l: Look)
    requires IsLook(l)
    ensures ActingOnRequests(Do(step, t, l), l) + (if ActsOnRequests(step) then Rows(step, t, l) else 0)
            == ActingOnRequests(t, l)
  {
    hide Do, Rows, IsLook, Marked;
    SendersDrop(step, t, l);
    SubmittersDrop(step, t, l);
    DecidersDrop(step, t, l);
    OwnersDrop(step, t, l);
    ReactivatorsDrop(step, t, l);
  }

  predicate ActsOnRecords(step: Step) {
    step == Authors || step == SensitiveActors || step == ViewActors
  }

  lemma OnRecordsDrop(step: Step, t: Tables, l: Look)
    requires IsLook(l)
    ensures ActingOnRecords(Do(step, t, l), l) + (if ActsOnRecords(step) then Rows(step, t, l) else 0)
            == ActingOnRecords(t, l)
  {
    hide Do, Rows, IsLook, Marked;
    AuthorsDrop(step, t, l);
    ChangersDrop(step, t, l);
    ViewersDrop(step, t, l);
  }

  predicate ActsInColumns(step: Step) {
    step == Removers || step == TemplateArchivers || step == ListArchivers
  }

  lemma InColumnsDrop(step: Step, t: Tables, l: Look)
    requires IsLook(l)
    ensures ActingInColumns(Do(step, t, l), l) + (if ActsInColumns(step) then Rows(step, t, l) else 0)
            == ActingInColumns(t, l)
  {
    hide Do, Rows, IsLook, Marked;
    RemoversDrop(step, t, l);
    TemplateArchiversDrop(step, t, l);
    ListArchiversDrop(step, t, l);
  }

  lemma ActorsCounted(step: Step)
    ensures CountOf(step) == Some(ActorsReplaced)
            <==> ActsOnRequests(step) || ActsOnRecords(step) || ActsInColumns(step)
    ensures !(ActsOnRequests(step) && ActsOnRecords(step)) && !(ActsOnRequests(step) && ActsInColumns(step))
            && !(ActsOnRecords(step) && ActsInColumns(step))
  {
  }

  /** Each statement clears as much as it counts. */
  lemma EachDrops(step: Step, t: Tables, l: Look, key: CountKey)
    requires IsLook(l) && IsClearing(key)
    ensures Uncleared(Do(step, t, l), l, key) + (if CountOf(step) == Some(key) then Rows(step, t, l) else 0)
            == Uncleared(t, l, key)
  {
    hide Do, Rows, IsLook, ActingOnRequests, ActingOnRecords, ActingInColumns, CountOf, ActsOnRequests,
      ActsOnRecords, ActsInColumns, Marked;
    if key == ActorsReplaced {
      ActorsCounted(step);
      OnRequestsDrop(step, t, l);
      OnRecordsDrop(step, t, l);
      InColumnsDrop(step, t, l);
    } else {
      TextsDrop(step, t, l, key);
    }
  }

  lemma {:induction false} CountsWhatDrops(steps: seq<Step>, t: Tables, l: Look, counts: Counts, key: CountKey)
    requires IsLook(l) && IsClearing(key)
    ensures Uncleared(DoAll(steps, t, l), l, key) + Get(CountAll(steps, t, l, counts), key)
            == Uncleared(t, l, key) + Get(counts, key)
  {
    hide Do, Rows, StoodIn, Uncleared, CountOf, IsLook;
    if steps != [] {
      EachDrops(steps[0], t, l, key);
      CountsWhatDrops(steps[1..], Do(steps[0], t, l), l, Counted(steps[0], t, l, counts), key);
    }
  }

  /** The receipt's counts of clearings are exactly the rows cleared: Forms
      sources put out of use, variables, notes, reasons and changes emptied,
      mail to the person cleared, texts of other mail emptied, and columns that
      named them as who did something. */
  lemma ClearingsAddUp(db: Db, c: Command, at: int, key: CountKey)
    requires IsCommand(c) && c.request !in db.receipts && Erase(db, c, at).1.Completed? && IsClearing(key)
    ensures var (after, answer) := Erase(db, c, at);
            var l := LookOf(db.tables, c);
            Uncleared(after.tables, l, key) + Get(answer.receipt.counts, key) == Uncleared(db.tables, l, key)
  {
    hide DoAll, CountAll, LookOf, MailInFlight, Refused, CanCommit, Uncleared, IsCommand, IsLook, IsClearing;
    var l := LookOf(db.tables, c);
    CommandLooks(db.tables, c);
    var first := DoAll(FIRST_STEPS, db.tables, l);
    CountsWhatDrops(FIRST_STEPS, db.tables, l, map[], key);
    CountsWhatDrops(LAST_STEPS, first, l, CountAll(FIRST_STEPS, db.tables, l, map[]), key);
  }

  // ---- The mail and the actors, plainly ------------------------------------

  function TheirOutMail(t: Tables, c: Command): (r: set<Id>) {
    set k | k in t.queue && WentTo(c, t.queue[k]) && IsOut(t.queue[k])
  }

  ghost function OutMailMentioning(t: Tables, c: Command): (r: set<Id>) {
    set k | k in t.queue && !WentTo(c, t.queue[k]) && IsOut(t.queue[k]) && MailMentions(t, c, t.queue[k])
  }

  lemma MailMarked(t: Tables, c: Command, l: Look)
    requires Agrees(t, c, l)
    ensures Marked(t.queue, IsTheirMail(l)) == TheirOutMail(t, c)
    ensures Marked(t.queue, NamesThem(l)) == OutMailMentioning(t, c)
  {
    hide Theirs, WentTo, MailNames, MailMentions, Names, Mentions;
    forall k | k in t.queue
      ensures MailNames(l, t.queue[k]) <==> MailMentions(t, c, t.queue[k])
    {
      MailAgrees(t, c, l, t.queue[k]);
    }
  }

  lemma NoMailIsLeft(u: Tables, l: Look)
    requires NoRowButPeople(u, l) && forall k | k in u.queue && u.queue[k].status.Some? :: !MailNames(l, u.queue[k])
    ensures Marked(u.queue, IsTheirMail(l)) == {} && Marked(u.queue, NamesThem(l)) == {}
  {
    hide Theirs, MailNames, IsPersons;
    assert forall k | k in u.queue :: !Theirs(l, u.queue[k]);
  }

  lemma UnclearedMail(t: Tables, l: Look)
    ensures Uncleared(t, l, QueueRowsCleared) == |Marked(t.queue, IsTheirMail(l))|
    ensures Uncleared(t, l, BodiesCleared) == |Marked(t.queue, NamesThem(l))|
    ensures Uncleared(t, l, ActorsReplaced) == Acting(t, l)
  {
    hide Marked, IsTheirMail, NamesThem, Acting;
  }

  lemma NoOneActs(u: Tables, l: Look)
    requires NoActorIsThem(u, l)
    ensures Acting(u, l) == 0
  {
    hide NoActorIsThem;
    NoneOnRequests(u, l);
    NoneOnRecords(u, l);
    NoneInColumns(u, l);
  }

  lemma NoneOnRequests(u: Tables, l: Look)
    requires NoActorIsThem(u, l)
    ensures ActingOnRequests(u, l) == 0
  {
    assert Marked(u.tasks, IsSender(l)) == {} && Marked(u.approvals, IsSubmitter(l)) == {};
    assert Marked(u.approvalEvents, IsDecider(l)) == {} && Marked(u.sources, IsOwner(l)) == {};
    assert Marked(u.reactivations, IsReactivator(l)) == {};
  }

  lemma NoneOnRecords(u: Tables, l: Look)
    requires NoActorIsThem(u, l)
    ensures ActingOnRecords(u, l) == 0
  {
    assert Marked(u.versions, IsActor(l)) == {} && Marked(u.sensitiveChanges, IsActor(l)) == {};
    assert Marked(u.contentViews, IsActor(l)) == {};
  }

  lemma NoneInColumns(u: Tables, l: Look)
    requires NoActorIsThem(u, l)
    ensures ActingInColumns(u, l) == 0
  {
    assert Marked(u.removals, IsSubject(l)) == {} && Marked(u.templateArchivers, IsArchiver(l)) == {};
    assert Marked(u.listArchivers, IsArchiver(l)) == {};
  }

  /** The mail counted as cleared is the mail to them that was out; the bodies
      counted are the other mail that was out and mentions them; and the actors
      counted are the columns that named them. */
  lemma MailAndActorsCounted(db: Db, c: Command, at: int)
    requires IsCommand(c) && c.request !in db.receipts && Erase(db, c, at).1.Completed?
    ensures var counts := Erase(db, c, at).1.receipt.counts;
            && Get(counts, QueueRowsCleared) == |TheirOutMail(db.tables, c)|
            && Get(counts, BodiesCleared) == |OutMailMentioning(db.tables, c)|
            && Get(counts, ActorsReplaced) == Acting(db.tables, LookOf(db.tables, c))
  {
    hide Erase, IsCommand, LookOf, Marked, Agrees, Uncleared, NoRowButPeople, NoActorIsThem, NoTextNamesThem, Acting,
      TheirOutMail, OutMailMentioning, MailNames, IsTheirMail, NamesThem;
    var t, u, l := db.tables, Erase(db, c, at).0.tables, LookOf(db.tables, c);
    ClearingsAddUp(db, c, at, QueueRowsCleared);
    ClearingsAddUp(db, c, at, BodiesCleared);
    ClearingsAddUp(db, c, at, ActorsReplaced);
    LookAgrees(t, c);
    MailMarked(t, c, l);
    ReceiptMeansGone(db, c, at);
    SentMailNamesNoOne(db, c, at);
    NoMailIsLeft(u, l);
    NoOneActs(u, l);
    UnclearedMail(t, l);
    UnclearedMail(u, l);
  }

  // ---- Counted once --------------------------------------------------------

  function Adds(step: Step, t: Tables, l: Look, key: CountKey): (n: nat) {
    (if CountOf(step) == Some(key) then Rows(step, t, l) else 0)
    + if key == Placeholders then StoodIn(step, t, l) else 0
  }

  lemma CountedAdds(step: Step, t: Tables, l: Look, counts: Counts, key: CountKey)
    ensures Get(Counted(step, t, l, counts), key) == Get(counts, key) + Adds(step, t, l, key)
  {
    hide Rows, StoodIn;
    NoneCountsStandIns(step);
  }

  lemma NoneCountsStandIns(step: Step)
    ensures CountOf(step) != Some(Placeholders)
  {
  }

  /** Statements that count nothing under a key. */
  predicate IsQuiet(steps: seq<Step>, key: CountKey) {
    forall i | 0 <= i < |steps| ::
      CountOf(steps[i]) != Some(key) && (key == Placeholders ==> steps[i] != StandIns && steps[i] != ApprovalPeople)
  }

  lemma {:induction false} QuietCounts(steps: seq<Step>, t: Tables, l: Look, counts: Counts, key: CountKey)
    requires IsQuiet(steps, key)
    ensures Get(CountAll(steps, t, l, counts), key) == Get(counts, key)
  {
    hide Do, Rows, Counted, CountOf;
    if steps != [] {
      CountedAdds(steps[0], t, l, counts, key);
      QuietCounts(steps[1..], Do(steps[0], t, l), l, Counted(steps[0], t, l, counts), key);
    }
  }

  lemma {:induction false} CountInTurn(a: seq<Step>, b: seq<Step>, t: Tables, l: Look, counts: Counts)
    ensures CountAll(a + b, t, l, counts) == CountAll(b, DoAll(a, t, l), l, CountAll(a, t, l, counts))
  {
    hide Do, Counted;
    if a == [] {
      assert a + b == b;
    } else {
      assert (a + b)[0] == a[0] && (a + b)[1..] == a[1..] + b;
      CountInTurn(a[1..], b, Do(a[0], t, l), l, Counted(a[0], t, l, counts));
    }
  }

  /** Up to and with one statement, the others of which count nothing. */
  lemma CountsOnce(a: seq<Step>, step: Step, b: seq<Step>, t: Tables, l: Look, counts: Counts, key: CountKey)
    requires IsQuiet(a, key)
    ensures Get(CountAll(a + ([step] + b), t, l, counts), key)
            == Get(CountAll(b, DoAll(a + [step], t, l), l,
                            Counted(step, DoAll(a, t, l), l, CountAll(a, t, l, counts))), key)
    ensures Get(Counted(step, DoAll(a, t, l), l, CountAll(a, t, l, counts)), key)
            == Get(counts, key) + Adds(step, DoAll(a, t, l), l, key)
  {
    hide Do, Counted, Adds, DoAll, CountAll, IsQuiet;
    var u := DoAll(a, t, l);
    CountInTurn(a, [step] + b, t, l, counts);
    CountInTurn([step], b, u, l, CountAll(a, t, l, counts));
    CountOne(step, u, l, CountAll(a, t, l, counts));
    DoInTurn(a, [step], t, l);
    QuietCounts(a, t, l, counts, key);
    CountedAdds(step, u, l, CountAll(a, t, l, counts), key);
  }

  lemma CountOne(step: Step, t: Tables, l: Look, counts: Counts)
    ensures CountAll([step], t, l, counts) == Counted(step, t, l, counts)
  {
    hide Do, Counted;
    assert [step][1..] == [];
    assert CountAll([], Do(step, t, l), l, Counted(step, t, l, counts)) == Counted(step, t, l, counts);
  }

  // ---- The inbox -----------------------------------------------------------

  lemma InboxOf(step: Step, t: Tables, l: Look)
    ensures Do(step, t, l).inbox == InboxAfter(step, t, l)
  {
    hide InboxAfter;
  }

  lemma {:induction false} InboxStays(steps: seq<Step>, t: Tables, l: Look)
    requires OwnInbox !in steps && NamingInbox !in steps
    ensures DoAll(steps, t, l).inbox == t.inbox
  {
    hide Do;
    if steps != [] {
      InboxOf(steps[0], t, l);
      InboxStays(steps[1..], Do(steps[0], t, l), l);
    }
  }

  function TheirItems(t: Tables, c: Command): (r: set<Id>) {
    set k | k in t.inbox && t.inbox[k].user == c.subject
  }

  ghost function ItemsMentioning(t: Tables, c: Command): (r: set<Id>) {
    set k | k in t.inbox && t.inbox[k].user != c.subject && ItemMentions(t, c, t.inbox[k])
  }

  lemma OwnInboxRows(t: Tables, u: Tables, c: Command, l: Look)
    requires u.inbox == t.inbox && l.subject == c.subject
    ensures Adds(OwnInbox, u, l, InboxDeleted) == |TheirItems(t, c)|
  {
    var hit := set k | k in u.inbox && u.inbox[k].user == l.subject;
    assert hit == TheirItems(t, c);
  }

  lemma NamingInboxRows(t: Tables, u: Tables, c: Command, l: Look)
    requires Agrees(t, c, l) && u.inbox == InboxAfter(OwnInbox, t, l)
    ensures Adds(NamingInbox, u, l, InboxNamingDeleted) == |ItemsMentioning(t, c)|
  {
    hide Names, Mentions, Theirs, WentTo;
    var hit := set k | k in u.inbox && HitsItem(l, u.inbox[k]);
    assert hit == ItemsMentioning(t, c);
  }

  const BEFORE_INBOX := FIRST_STEPS[..6]
  const AFTER_INBOX := FIRST_STEPS[8..]

  lemma InboxCountedBy(steps: seq<Step>)
    ensures IsQuiet(steps, InboxDeleted) <==> OwnInbox !in steps
    ensures IsQuiet(steps, InboxNamingDeleted) <==> NamingInbox !in steps
  {
    hide CountOf;
    forall step
      ensures CountOf(step) == Some(InboxDeleted) <==> step == OwnInbox
      ensures CountOf(step) == Some(InboxNamingDeleted) <==> step == NamingInbox
    {
      InboxCountOf(step);
    }
  }

  lemma InboxCountOf(step: Step)
    ensures CountOf(step) == Some(InboxDeleted) <==> step == OwnInbox
    ensures CountOf(step) == Some(InboxNamingDeleted) <==> step == NamingInbox
  {
  }

  lemma InboxSplits()
    ensures FIRST_STEPS == BEFORE_INBOX + ([OwnInbox] + ([NamingInbox] + AFTER_INBOX))
    ensures OwnInbox !in BEFORE_INBOX && NamingInbox !in BEFORE_INBOX
    ensures OwnInbox !in AFTER_INBOX && NamingInbox !in AFTER_INBOX
    ensures OwnInbox !in LAST_STEPS && NamingInbox !in LAST_STEPS
  {
    assert FIRST_STEPS[6] == OwnInbox && FIRST_STEPS[7] == NamingInbox;
  }

  lemma FirstInboxCounts(t: Tables, c: Command, l: Look, before: seq<Step>, after: seq<Step>)
    requires Agrees(t, c, l) && OwnInbox !in before && NamingInbox !in before
    requires OwnInbox !in after && NamingInbox !in after
    ensures var counts := CountAll(before + ([OwnInbox] + ([NamingInbox] + after)), t, l, map[]);
            && Get(counts, InboxDeleted) == |TheirItems(t, c)|
            && Get(counts, InboxNamingDeleted) == |ItemsMentioning(t, c)|
  {
    hide Do, Counted, Adds, DoAll, CountAll, IsQuiet, Agrees, TheirItems, ItemsMentioning, InboxAfter;
    var b := DoAll(before, t, l);
    InboxCountedBy(before);
    InboxCountedBy([NamingInbox] + after);
    InboxCountedBy(before + [OwnInbox]);
    InboxCountedBy(after);
    InboxStays(before, t, l);
    SubjectAgrees(t, c, l);
    OwnInboxRows(t, b, c, l);
    CountsOnce(before, OwnInbox, [NamingInbox] + after, t, l, map[], InboxDeleted);
    QuietCounts([NamingInbox] + after, DoAll(before + [OwnInbox], t, l), l,
                Counted(OwnInbox, b, l, CountAll(before, t, l, map[])), InboxDeleted);
    var own := before + [OwnInbox];
    assert before + ([OwnInbox] + ([NamingInbox] + after)) == own + ([NamingInbox] + after);
    DoInTurn(before, [OwnInbox], t, l);
    DoOne(OwnInbox, b, l);
    InboxOf(OwnInbox, b, l);
    SameOwnInbox(t, b, l);
    NamingInboxRows(t, DoAll(own, t, l), c, l);
    CountsOnce(own, NamingInbox, after, t, l, map[], InboxNamingDeleted);
    QuietCounts(after, DoAll(own + [NamingInbox], t, l), l,
                Counted(NamingInbox, DoAll(own, t, l), l, CountAll(own, t, l, map[])), InboxNamingDeleted);
  }

  lemma SameOwnInbox(t: Tables, u: Tables, l: Look)
    requires u.inbox == t.inbox
    ensures InboxAfter(OwnInbox, u, l) == InboxAfter(OwnInbox, t, l)
  {
  }

  lemma DoOne(step: Step, t: Tables, l: Look)
    ensures DoAll([step], t, l) == Do(step, t, l)
  {
    hide Do;
    assert [step][1..] == [];
    assert DoAll([], Do(step, t, l), l) == Do(step, t, l);
  }

  /** The inbox items counted are theirs, and of the others those that mention
      them. */
  lemma InboxCounted(db: Db, c: Command, at: int)
    requires IsCommand(c) && c.request !in db.receipts && Erase(db, c, at).1.Completed?
    ensures var counts := Erase(db, c, at).1.receipt.counts;
            && Get(counts, InboxDeleted) == |TheirItems(db.tables, c)|
            && Get(counts, InboxNamingDeleted) == |ItemsMentioning(db.tables, c)|
  {
    hide DoAll, CountAll, LookOf, MailInFlight, Refused, CanCommit, IsCommand, Agrees, IsQuiet, TheirItems,
      ItemsMentioning;
    var t, l := db.tables, LookOf(db.tables, c);
    LookAgrees(t, c);
    InboxSplits();
    FirstInboxCounts(t, c, l, BEFORE_INBOX, AFTER_INBOX);
    InboxCountedBy(LAST_STEPS);
    var counts := CountAll(FIRST_STEPS, t, l, map[]);
    QuietCounts(LAST_STEPS, DoAll(FIRST_STEPS, t, l), l, counts, InboxDeleted);
    QuietCounts(LAST_STEPS, DoAll(FIRST_STEPS, t, l), l, counts, InboxNamingDeleted);
  }

  // ---- Stand-ins -----------------------------------------------------------

  /** The first of their queued sends in a request that has no stand-in. */
  predicate IsFirstSend(t: Tables, c: Command, k: (Id, nat)) {
    && IsTheirSend(t, c, k)
    && (forall o | o in t.people && o.0 == k.0 :: Lower(t.people[o].email) != DELETED_EMAIL)
    && (forall o | o in t.people && o.0 == k.0 && o.1 < k.1 :: !IsTheirSend(t, c, o))
  }

  function FirstSends(t: Tables, c: Command): (r: set<(Id, nat)>) {
    set k | k in t.people && IsFirstSend(t, c, k)
  }

  function LeftWithNoOne(t: Tables, c: Command): (r: set<Id>) {
    set a | a in t.approvals && IsLeftWithNoOne(t, c, a)
  }

  lemma {:induction false} PeopleStayIn(steps: seq<Step>, t: Tables, l: Look)
    requires StandIns !in steps && ApprovalPeople !in steps
    ensures DoAll(steps, t, l).people == t.people
  {
    hide Do, PeopleAfter;
    if steps != [] {
      PeopleOf(steps[0], t, l);
      NoPeopleTouched(steps[0], t, l);
      PeopleStayIn(steps[1..], Do(steps[0], t, l), l);
    }
  }

  lemma {:induction false} SendsStayIn(steps: seq<Step>, t: Tables, l: Look)
    requires SendLinks !in steps
    ensures DoAll(steps, t, l).sends == t.sends
  {
    hide Do, HitsSend;
    if steps != [] {
      SendsOf(steps[0], t, l);
      SendsStayIn(steps[1..], Do(steps[0], t, l), l);
    }
  }

  lemma FirstSendPlainly(t: Tables, u: Tables, c: Command, l: Look)
    requires Agrees(t, c, l) && u.people == t.people && u.sends == t.sends
    ensures StoodIn(StandIns, u, l) == |FirstSends(t, c)|
  {
    hide Lower, IsTheirAddress, Names, Mentions, Theirs, WentTo;
    var hit := set k | k in u.people && HitsStandIn(u, l, k);
    forall k | k in t.people
      ensures HitsStandIn(u, l, k) <==> IsFirstSend(t, c, k)
    {
      if CanStandIn(u, l, k) {
        forall o | o in t.people && o.0 == k.0
          ensures CanStandIn(u, l, o) <==> IsTheirSend(t, c, o)
        {
        }
      }
    }
    assert hit == FirstSends(t, c);
  }

  lemma EmptiedPlainly(t: Tables, w: Tables, c: Command, l: Look)
    requires Agrees(t, c, l) && Emptied(w, l) == LeftEmpty(t, l)
    ensures StoodIn(ApprovalPeople, w, l) == |LeftWithNoOne(t, c)|
  {
    hide Emptied, LeftEmpty, IsLeftWithNoOne, StandsIn, IsStoodInFor, Names, Mentions, Theirs, WentTo, IsTheirAddress,
      Lower;
    forall k
      ensures StandsIn(t, l, k) <==> IsStoodInFor(t, c, k)
    {
      StandInPlainly(t, c, l, k);
    }
    forall k
      ensures k in LeftEmpty(t, l) <==> k.1 == 1 && IsLeftWithNoOne(t, c, k.0)
    {
      NoOnePlainly(t, c, l, k);
    }
    var left := LeftWithNoOne(t, c);
    assert forall a :: a in left <==> IsLeftWithNoOne(t, c, a) by {
      forall a
        ensures IsLeftWithNoOne(t, c, a) ==> a in t.approvals
      {
        LeftIsARequest(t, c, a);
      }
    }
    PairedSize(left, LeftEmpty(t, l));
  }

  lemma LeftIsARequest(t: Tables, c: Command, a: Id)
    ensures IsLeftWithNoOne(t, c, a) ==> a in t.approvals
  {
    hide IsTheirAddress, IsStoodInFor;
  }

  lemma {:induction false} PairedSize(ids: set<Id>, pairs: set<(Id, nat)>)
    requires forall k :: k in pairs <==> k.1 == 1 && k.0 in ids
    ensures |pairs| == |ids|
    decreases ids
  {
    if ids == {} {
      assert pairs == {};
    } else {
      var a :| a in ids;
      var pair: (Id, nat) := (a, 1);
      assert pair in pairs;
      PairedSize(ids - {a}, pairs - {pair});
    }
  }

  const BEFORE_STAND_INS := LAST_STEPS[..10]
  const AFTER_APPROVAL_PEOPLE := LAST_STEPS[13..]

  lemma StandInsCountedBy(steps: seq<Step>)
    ensures IsQuiet(steps, Placeholders) <==> StandIns !in steps && ApprovalPeople !in steps
  {
    hide CountOf;
    forall step
      ensures CountOf(step) != Some(Placeholders)
    {
      OnlyStandIns(step);
    }
  }

  lemma FirstPutsInNone()
    ensures StandIns !in FIRST_STEPS && ApprovalPeople !in FIRST_STEPS && SendLinks !in FIRST_STEPS
  {
  }

  lemma StandInsSplit()
    ensures LAST_STEPS == BEFORE_STAND_INS + ([StandIns] + ([SendLinks] + ([ApprovalPeople] + AFTER_APPROVAL_PEOPLE)))
    ensures StandIns !in BEFORE_STAND_INS && ApprovalPeople !in BEFORE_STAND_INS && SendLinks !in BEFORE_STAND_INS
    ensures StandIns !in AFTER_APPROVAL_PEOPLE && ApprovalPeople !in AFTER_APPROVAL_PEOPLE
  {
    assert LAST_STEPS[10] == StandIns && LAST_STEPS[11] == SendLinks && LAST_STEPS[12] == ApprovalPeople;
  }

  /** The stand-ins counted while the people of requests are gone through. */
  lemma StandInCounts(f: Tables, l: Look, counts: Counts, before: seq<Step>, after: seq<Step>)
    requires StandIns !in before && ApprovalPeople !in before && StandIns !in after && ApprovalPeople !in after
    ensures var v := DoAll(before, f, l);
            var w := DoAll([SendLinks], Do(StandIns, v, l), l);
            Get(CountAll(before + ([StandIns] + ([SendLinks] + ([ApprovalPeople] + after))), f, l, counts),
                Placeholders)
            == Get(counts, Placeholders) + StoodIn(StandIns, v, l) + StoodIn(ApprovalPeople, w, l)
  {
    hide Do, Counted, DoAll, CountAll, IsQuiet, StoodIn, Rows;
    var v := DoAll(before, f, l);
    StandInsCountedBy(before);
    StandInsCountedBy([SendLinks]);
    StandInsCountedBy(after);
    CountsOnce(before, StandIns, [SendLinks] + ([ApprovalPeople] + after), f, l, counts, Placeholders);
    var one := Counted(StandIns, v, l, CountAll(before, f, l, counts));
    DoInTurn(before, [StandIns], f, l);
    DoOne(StandIns, v, l);
    var x := Do(StandIns, v, l);
    CountsOnce([SendLinks], ApprovalPeople, after, x, l, one, Placeholders);
    var w := DoAll([SendLinks], x, l);
    QuietCounts(after, DoAll([SendLinks] + [ApprovalPeople], x, l), l,
                Counted(ApprovalPeople, w, l, CountAll([SendLinks], x, l, one)), Placeholders);
    OnlyStandIns(StandIns);
    OnlyStandIns(ApprovalPeople);
  }

  lemma OnlyStandIns(step: Step)
    ensures CountOf(step) != Some(Placeholders)
  {
  }

  /** The stand-ins counted are one for the first queued send of theirs in each
      request without one, and one for each request that would have no one. */
  lemma StandInsCounted(db: Db, c: Command, at: int)
    requires IsCommand(c) && c.request !in db.receipts && Erase(db, c, at).1.Completed?
    ensures Get(Erase(db, c, at).1.receipt.counts, Placeholders)
            == |FirstSends(db.tables, c)| + |LeftWithNoOne(db.tables, c)|
  {
    hide DoAll, CountAll, LookOf, MailInFlight, Refused, CanCommit, IsCommand, IsQuiet, FirstSends, LeftWithNoOne,
      StoodIn, Do, IsLook, Agrees;
    var t, l := db.tables, LookOf(db.tables, c);
    CommandLooks(t, c);
    LookAgrees(t, c);
    StandInsSplit();
    FirstPutsInNone();
    StandInsCountedBy(FIRST_STEPS);
    var f := DoAll(FIRST_STEPS, t, l);
    QuietCounts(FIRST_STEPS, t, l, map[], Placeholders);
    StandInCounts(f, l, CountAll(FIRST_STEPS, t, l, map[]), BEFORE_STAND_INS, AFTER_APPROVAL_PEOPLE);
    PeopleStayIn(FIRST_STEPS, t, l);
    SendsStayIn(FIRST_STEPS, t, l);
    PeopleStayIn(BEFORE_STAND_INS, f, l);
    SendsStayIn(BEFORE_STAND_INS, f, l);
    FirstSendPlainly(t, DoAll(BEFORE_STAND_INS, f, l), c, l);
    StandInsOnRequests(t, f, l);
    EmptiedPlainly(t, DoAll([SendLinks], Do(StandIns, DoAll(BEFORE_STAND_INS, f, l), l), l), c, l);
  }

  lemma StandInsOnRequests(t: Tables, f: Tables, l: Look)
    requires IsLook(l) && f == DoAll(FIRST_STEPS, t, l) && f.people == t.people && f.sends == t.sends
    requires var v := DoAll(BEFORE_STAND_INS, f, l); v.people == f.people && v.sends == f.sends
    ensures Emptied(DoAll([SendLinks], Do(StandIns, DoAll(BEFORE_STAND_INS, f, l), l), l), l) == LeftEmpty(t, l)
  {
    hide DoAll, Do, IsLook, Lessens, LessApprovals, Emptied, LeftEmpty, PeopleAfter;
    var v := DoAll(BEFORE_STAND_INS, f, l);
    var x := Do(StandIns, v, l);
    var w := DoAll([SendLinks], x, l);
    DoAllLessens(FIRST_STEPS, t, l);
    DoAllLessens(BEFORE_STAND_INS, f, l);
    LessensInTurn(t, f, v, l);
    DoLessens(StandIns, v, l);
    LessensInTurn(t, v, x, l);
    DoAllLessens([SendLinks], x, l);
    LessensInTurn(t, x, w, l);
    TargetsLast(t, w, l);
    PeopleOf(StandIns, v, l);
    SameStandIns(t, v, l);
    PeopleStayIn([SendLinks], x, l);
    EmptiedAre(t, w, l);
  }

  lemma TargetsLast(t: Tables, w: Tables, l: Look)
    requires Lessens(t, w, l)
    ensures w.approvals.Keys == t.approvals.Keys && forall a | a in t.approvals ::
              w.approvals[a].list == t.approvals[a].list
  {
    hide Names, LessQueue, LessTasks, LessLinks, LessEvents, LessApprovalEvents, LessSourcePeople, LessSuppressions,
      LessReactivations, LessInbox, LessColumns, LessRecords, LessAddresses, LessSources, LessPeople, LessSends;
  }
}
