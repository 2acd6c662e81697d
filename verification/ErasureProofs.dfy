// What an erasure leaves: nothing of the person, everything of everyone else,
// and nothing for the same erasure to do again.
module ErasureProofs {
  import opened Options
  import opened Text
  import opened Erasure

  // ---- What is looked for --------------------------------------------------

  /** A command as the route lets it in: whole addresses without white space, of
      a person who is not the stand-in. */
  predicate IsCommand(c: Command) {
    c.subject != DELETED_SUBJECT && forall x | x in c.emails :: IsAddress(x)
  }

  predicate IsAddress(x: string) {
    '@' in x && forall i | 0 <= i < |x| :: !IsBlank(x[i])
  }

  /** A needle is an address or a name of several words. */
  predicate IsNeedle(n: string) {
    '@' in n || ' ' in n
  }

  predicate IsLook(l: Look) {
    && l.subject != DELETED_SUBJECT
    && "" !in l.emails
    && (forall e | e in l.emails :: '@' in e)
    && (forall n | n in l.needles :: IsNeedle(n))
  }

  /** The stand-in's own address is among the person's: the route does not refuse
      it, and then a stand-in put in is the person's again. */
  predicate TakesStandIn(l: Look) {
    DELETED_EMAIL in l.emails
  }

  lemma CommandEmails(c: Command)
    requires IsCommand(c)
    ensures forall e | e in Emails(c) :: '@' in e
    ensures forall x | x in c.emails :: Lower(x) in Emails(c)
  {
    hide Btrim, Lower, IsAddress;
    forall x | x in c.emails
      ensures Btrim(x) == x && x != "" && '@' in Lower(x)
    {
      AddressIsWhole(x);
    }
  }

  lemma NeedlesAreNeedles(t: Tables, subject: string, emails: set<string>)
    requires forall e | e in emails :: '@' in e
    ensures emails <= Needles(t, subject, emails) && forall n | n in Needles(t, subject, emails) :: IsNeedle(n)
  {
    hide IsHeld, AllNames, FullName, Lower;
  }

  lemma CommandLooks(t: Tables, c: Command)
    requires IsCommand(c)
    ensures IsLook(LookOf(t, c))
    ensures forall x | x in c.emails :: Lower(x) in LookOf(t, c).emails && Lower(x) in LookOf(t, c).needles
  {
    hide Lower, Needles, Emails, IsNeedle;
    CommandEmails(c);
    NeedlesAreNeedles(t, c.subject, Emails(c));
  }

  lemma AddressIsWhole(x: string)
    requires IsAddress(x)
    ensures Btrim(x) == x && x != "" && '@' in Lower(x)
  {
    hide Btrim, Lower;
    var i :| 0 <= i < |x| && x[i] == '@';
    assert !IsBlank(x[0]) && !IsBlank(x[|x| - 1]);
    assert Lower(x)[i] == '@';
  }

  /** A text without an '@' or a blank names no one: the texts put in place of
      what was cleared are such. */
  lemma PlainTextNamesNoOne(l: Look, text: string)
    requires IsLook(l) && '@' !in text && ' ' !in text
    ensures !Names(l, text)
  {
    if n :| n in l.needles && Contains(Lower(text), n) {
      var c := if '@' in n then '@' else ' ';
      ContainsChar(Lower(text), n, c);
      var i :| 0 <= i < |text| && Lower(text)[i] == c;
      assert text[i] == c;
    }
  }

  lemma Constants(l: Look)
    requires IsLook(l)
    ensures !Names(l, "") && !Names(l, NO_VARIABLES) && !Names(l, ERASED_NOTE)
    ensures Lower("") == "" && Lower(DELETED_EMAIL) == DELETED_EMAIL
  {
    PlainTextNamesNoOne(l, "");
    PlainTextNamesNoOne(l, NO_VARIABLES);
    PlainTextNamesNoOne(l, ERASED_NOTE);
  }

  // ---- What a statement may change -----------------------------------------

  predicate LessMail(l: Look, q: QueueRow, r: QueueRow) {
    && r.task == q.task && r.status == q.status && r.sourceRef == q.sourceRef
    && (r.token.Some? ==> r.token == q.token)
    && (Theirs(l, r) ==> Theirs(l, q) && r.name == q.name && r.email == q.email && r.sub == q.sub)
    && (MailNames(l, r) ==> MailNames(l, q))
    && (Theirs(l, q) && !Theirs(l, r) ==> !MailNames(l, r) && IsFinal(q))
    && (!Theirs(l, q) ==>
          && !Theirs(l, r)
          && r == q.(subject := r.subject, body := r.body, html := r.html)
          && (!MailNames(l, q) || !IsFinal(q) ==> r == q))
    && (Theirs(l, q) && !IsFinal(q) ==> r == q.(token := r.token, tokenClosed := r.tokenClosed))
  }

  /** Mail to others stays, and is as it was but for a text naming the person
      that has gone out; mail to the person is only ever cleared or deleted,
      and what is with the mailer keeps its text. */
  predicate LessQueue(t: Tables, u: Tables, l: Look) {
    && (forall k | k in u.queue :: k in t.queue && LessMail(l, t.queue[k], u.queue[k]))
    && (forall k | k in t.queue && k !in u.queue :: Theirs(l, t.queue[k]) && IsWaiting(t.queue[k]))
  }

  predicate SubLess(l: Look, a: string, b: string) {
    b == a || (a == l.subject && b == DELETED_SUBJECT)
  }

  predicate OptionalSubLess(l: Look, a: Option<string>, b: Option<string>) {
    b == a || (a == Some(l.subject) && b == Some(DELETED_SUBJECT))
  }

  predicate LessTasks(t: Tables, u: Tables, l: Look) {
    u.tasks.Keys == t.tasks.Keys
    && forall k | k in u.tasks ::
      && SubLess(l, t.tasks[k].sentBy, u.tasks[k].sentBy)
      && (u.tasks[k].variables == t.tasks[k].variables
          || (u.tasks[k].variables == NO_VARIABLES && HitsVariables(t, l, k, t.tasks[k])))
  }

  predicate LessLinks(t: Tables, u: Tables, l: Look) {
    u.links.Keys == t.links.Keys
    && forall k | k in u.links ::
      u.links[k] == t.links[k] || (HitsLink(t, l, t.links[k]) && u.links[k] == t.links[k].(url := None, erased := true))
  }

  predicate LessEvents(t: Tables, u: Tables, l: Look) {
    && (forall k | k in u.events :: k in t.events && u.events[k] == t.events[k])
    && (forall k | k in t.events && k !in u.events :: HitsEvent(t, l, t.events[k]))
  }

  predicate LessApproval(l: Look, a: Approval, b: Approval) {
    && b.list == a.list && b.source == a.source
    && (b.variables == a.variables || (b.variables == NO_VARIABLES && Names(l, a.variables)))
    && ((b.submitter == a.submitter && b.submitterName == a.submitterName && b.submitterEmail == a.submitterEmail
         && b.emailUnverified == a.emailUnverified)
        || (a.submitter == l.subject && b.submitter == DELETED_SUBJECT && b.submitterName == Some(DELETED_NAME)
            && b.submitterEmail == None && !b.emailUnverified))
  }

  predicate LessApprovals(t: Tables, u: Tables, l: Look) {
    u.approvals.Keys == t.approvals.Keys
    && forall k | k in u.approvals :: LessApproval(l, t.approvals[k], u.approvals[k])
  }

  predicate IsPersons(l: Look, p: Person) {
    Lower(p.email) in l.emails
  }

  const STAND_IN := Person(DELETED_EMAIL, DELETED_NAME)

  /** Everyone else stays in a request at their place; the only one who can be
      put in is the stand-in. */
  predicate LessPeople(t: Tables, u: Tables, l: Look) {
    && (forall k | k in u.people :: (k in t.people && u.people[k] == t.people[k]) || u.people[k] == STAND_IN)
    && (forall k | k in t.people && !IsPersons(l, t.people[k]) :: k in u.people && u.people[k] == t.people[k])
  }

  predicate LessSends(t: Tables, u: Tables, l: Look) {
    && (forall k | k in u.sends :: k in t.sends && u.sends[k] == t.sends[k])
    && (forall k | k in t.sends && k !in u.sends :: HitsSend(t, l, k) || (TakesStandIn(l) && k !in t.people))
  }

  predicate LessEvent(l: Look, e: ApprovalEvent, f: ApprovalEvent) {
    && f.rejected == e.rejected
    && ((f.actor == e.actor && f.actorName == e.actorName)
        || (e.actor == Some(l.subject) && f.actor == Some(DELETED_SUBJECT) && f.actorName == Some(DELETED_NAME)))
    && (f.changes == e.changes || (f.changes == None && e.changes.Some? && Names(l, e.changes.value)))
    && (f.note == e.note || (HitsNote(l, e) && f.note == if e.rejected then Some(ERASED_NOTE) else None))
  }

  predicate LessApprovalEvents(t: Tables, u: Tables, l: Look) {
    u.approvalEvents.Keys == t.approvalEvents.Keys
    && forall k | k in u.approvalEvents :: LessEvent(l, t.approvalEvents[k], u.approvalEvents[k])
  }

  predicate LessSources(t: Tables, u: Tables, l: Look) {
    u.sources.Keys == t.sources.Keys
    && forall k | k in u.sources ::
      && SubLess(l, t.sources[k].owner, u.sources[k].owner)
      && (u.sources[k].title == t.sources[k].title
          || (Names(l, t.sources[k].title) && u.sources[k].title == ERASED_NOTE))
      && (t.sources[k].invalidated ==> u.sources[k].invalidated)
      && (u.sources[k].invalidated ==> t.sources[k].invalidated || SourceConcerns(t, l, k, t.sources[k]))
      && u.sources[k].recipientCount == t.sources[k].recipientCount
  }

  predicate LessSourcePeople(t: Tables, u: Tables, l: Look) {
    && (forall k | k in u.sourcePeople :: k in t.sourcePeople && u.sourcePeople[k] == t.sourcePeople[k])
    && (forall k | k in t.sourcePeople && k !in u.sourcePeople :: IsPersons(l, t.sourcePeople[k]))
  }

  predicate LessActors(l: Look, a: map<Id, Actor>, b: map<Id, Actor>) {
    b.Keys == a.Keys && forall k | k in b :: b[k] == a[k] || b[k] == Replaced(l, a[k])
  }

  predicate LessSuppressions(t: Tables, u: Tables, l: Look) {
    && (forall a | a in u.suppressions ::
          && a in t.suppressions && u.suppressions[a].sub == t.suppressions[a].sub
          && (u.suppressions[a].lastQueue == t.suppressions[a].lastQueue
              || (u.suppressions[a].lastQueue == None && LosesItsMail(t, l, t.suppressions[a]))))
    && (forall a | a in t.suppressions && a !in u.suppressions :: HitsSuppression(t, l, a, t.suppressions[a]))
  }

  predicate LosesItsMail(t: Tables, l: Look, s: Suppression) {
    s.lastQueue.Some? && s.lastQueue.value in t.queue && Theirs(l, t.queue[s.lastQueue.value])
  }

  predicate LessReactivations(t: Tables, u: Tables, l: Look) {
    u.reactivations.Keys == t.reactivations.Keys
    && forall k | k in u.reactivations ::
      && OptionalSubLess(l, t.reactivations[k].actor, u.reactivations[k].actor)
      && (u.reactivations[k].reason == t.reactivations[k].reason
          || (HitsReason(l, t.reactivations[k]) && u.reactivations[k].reason == Some(ERASED_NOTE)))
  }

  predicate LessInbox(t: Tables, u: Tables, l: Look) {
    && (forall k | k in u.inbox :: k in t.inbox && u.inbox[k] == t.inbox[k])
    && (forall k | k in t.inbox && k !in u.inbox :: t.inbox[k].user == l.subject || HitsItem(l, t.inbox[k]))
  }

  predicate LessColumns(t: Tables, u: Tables, l: Look) {
    && u.removals.Keys == t.removals.Keys
    && (forall k | k in u.removals :: SubLess(l, t.removals[k], u.removals[k]))
    && u.templateArchivers.Keys == t.templateArchivers.Keys
    && (forall k | k in u.templateArchivers :: OptionalSubLess(l, t.templateArchivers[k], u.templateArchivers[k]))
    && u.listArchivers.Keys == t.listArchivers.Keys
    && (forall k | k in u.listArchivers :: OptionalSubLess(l, t.listArchivers[k], u.listArchivers[k]))
  }

  predicate LessRecords(t: Tables, u: Tables, l: Look) {
    && LessActors(l, t.versions, u.versions)
    && LessActors(l, t.sensitiveChanges, u.sensitiveChanges)
    && LessActors(l, t.contentViews, u.contentViews)
  }

  predicate LessAddresses(t: Tables, u: Tables, l: Look) {
    && u.unsubscribes <= t.unsubscribes
    && (forall x | x in t.unsubscribes && x !in u.unsubscribes :: x.0 in l.emails)
    && (forall k | k in u.recipients :: k in t.recipients && u.recipients[k] == t.recipients[k])
    && (forall k | k in t.recipients && k !in u.recipients :: IsPersons(l, t.recipients[k]))
    && (forall k | k in u.memberships :: k in t.memberships && u.memberships[k] == t.memberships[k])
    && (forall k | k in t.memberships && k !in u.memberships :: HitsMembership(t, l, t.memberships[k].1))
  }

  /** u is t with something of the person taken out: every row that does not
      concern them is as it was. */
  predicate Lessens(t: Tables, u: Tables, l: Look) {
    && LessQueue(t, u, l) && LessTasks(t, u, l) && LessLinks(t, u, l) && LessEvents(t, u, l)
    && LessApprovals(t, u, l) && LessPeople(t, u, l) && LessSends(t, u, l) && LessApprovalEvents(t, u, l)
    && LessSources(t, u, l) && LessSourcePeople(t, u, l) && LessSuppressions(t, u, l) && LessReactivations(t, u, l)
    && LessInbox(t, u, l) && LessColumns(t, u, l) && LessRecords(t, u, l) && LessAddresses(t, u, l)
  }

  lemma DoQueue(step: Step, t: Tables, l: Look)
    requires IsLook(l)
    ensures LessQueue(t, Do(step, t, l), l)
  {
    hide Lower, Names, Do, LessMail, Theirs, HitsBody, IsFinal, IsWaiting, IsLook, Cleared;
    QueueOf(step, t, l);
    var u := QueueAfter(step, t, l);
    forall k | k in u
      ensures k in t.queue && LessMail(l, t.queue[k], u[k])
    {
      MailIsLess(l, t.queue[k]);
    }
  }

  lemma MailIsLess(l: Look, q: QueueRow)
    requires IsLook(l)
    ensures LessMail(l, q, q)
    ensures Theirs(l, q) ==> LessMail(l, q, q.(token := None, tokenClosed := true))
    ensures HitsBody(l, q) ==> LessMail(l, q, q.(subject := "", body := "", html := None))
    ensures IsFinal(q) && Theirs(l, q) ==> LessMail(l, q, Cleared(q))
  {
    hide Lower, Names, IsNeedle;
    Constants(l);
  }

  lemma DoTasks(step: Step, t: Tables, l: Look)
    requires IsLook(l)
    ensures LessTasks(t, Do(step, t, l), l)
  {
    hide Lower, Names, LinkNames, Alone, RecipientsAfter, MembershipsAfter, QueueAfter, LinksAfter, EventsAfter,
      ApprovalsAfter, PeopleAfter, SendsAfter, ApprovalEventsAfter, SourcesAfter, SourcePeopleAfter, VersionsAfter,
      SensitiveChangesAfter, ContentViewsAfter, SuppressionsAfter, RemovalsAfter, UnsubscribesAfter,
      ReactivationsAfter, InboxAfter, TemplateArchiversAfter, ListArchiversAfter;
    Constants(l);
  }

  lemma DoLinks(step: Step, t: Tables, l: Look)
    requires IsLook(l)
    ensures LessLinks(t, Do(step, t, l), l)
  {
    hide Lower, Names, LinkNames, Alone, RecipientsAfter, MembershipsAfter, QueueAfter, TasksAfter, EventsAfter,
      ApprovalsAfter, PeopleAfter, SendsAfter, ApprovalEventsAfter, SourcesAfter, SourcePeopleAfter, VersionsAfter,
      SensitiveChangesAfter, ContentViewsAfter, SuppressionsAfter, RemovalsAfter, UnsubscribesAfter,
      ReactivationsAfter, InboxAfter, TemplateArchiversAfter, ListArchiversAfter;
    Constants(l);
  }

  lemma DoEvents(step: Step, t: Tables, l: Look)
    requires IsLook(l)
    ensures LessEvents(t, Do(step, t, l), l)
  {
    hide Lower, Names, LinkNames, Alone, RecipientsAfter, MembershipsAfter, QueueAfter, TasksAfter, LinksAfter,
      ApprovalsAfter, PeopleAfter, SendsAfter, ApprovalEventsAfter, SourcesAfter, SourcePeopleAfter, VersionsAfter,
      SensitiveChangesAfter, ContentViewsAfter, SuppressionsAfter, RemovalsAfter, UnsubscribesAfter,
      ReactivationsAfter, InboxAfter, TemplateArchiversAfter, ListArchiversAfter;
    Constants(l);
  }

  lemma DoApprovals(step: Step, t: Tables, l: Look)
    requires IsLook(l)
    ensures LessApprovals(t, Do(step, t, l), l)
  {
    hide Lower, Names, LinkNames, Alone, RecipientsAfter, MembershipsAfter, QueueAfter, TasksAfter, LinksAfter,
      EventsAfter, PeopleAfter, SendsAfter, ApprovalEventsAfter, SourcesAfter, SourcePeopleAfter, VersionsAfter,
      SensitiveChangesAfter, ContentViewsAfter, SuppressionsAfter, RemovalsAfter, UnsubscribesAfter,
      ReactivationsAfter, InboxAfter, TemplateArchiversAfter, ListArchiversAfter;
    Constants(l);
  }

  lemma DoPeople(step: Step, t: Tables, l: Look)
    requires IsLook(l)
    ensures LessPeople(t, Do(step, t, l), l)
  {
    hide Lower, HitsStandIn, Do, PeopleAfter;
    PeopleOf(step, t, l);
    if step == StandIns {
      StandInsPeople(t, l);
    } else if step == ApprovalPeople {
      ApprovalPeoplePeople(t, l);
    } else {
      NoPeopleTouched(step, t, l);
    }
  }

  lemma StandInsPeople(t: Tables, l: Look)
    ensures LessPeople(t, Do(StandIns, t, l), l)
  {
    hide Lower, HitsStandIn, Do;
    PeopleOf(StandIns, t, l);
    StandInsReplaceThePerson(t, l);
  }

  lemma ApprovalPeoplePeople(t: Tables, l: Look)
    ensures LessPeople(t, Do(ApprovalPeople, t, l), l)
  {
    hide Lower, Do;
    PeopleOf(ApprovalPeople, t, l);
  }

  lemma NoPeopleTouched(step: Step, t: Tables, l: Look)
    requires step != StandIns && step != ApprovalPeople
    ensures PeopleAfter(step, t, l) == t.people
  {
    hide HitsStandIn, Emptied, Lower;
  }

  lemma PeopleOf(step: Step, t: Tables, l: Look)
    ensures Do(step, t, l).people == PeopleAfter(step, t, l)
  {
    hide PeopleAfter;
  }

  lemma MembershipsOf(step: Step, t: Tables, l: Look)
    ensures Do(step, t, l).memberships == MembershipsAfter(step, t, l)
  {
    hide MembershipsAfter;
  }

  lemma QueueOf(step: Step, t: Tables, l: Look)
    ensures Do(step, t, l).queue == QueueAfter(step, t, l)
  {
    hide QueueAfter;
  }

  lemma TasksOf(step: Step, t: Tables, l: Look)
    ensures Do(step, t, l).tasks == TasksAfter(step, t, l)
  {
    hide TasksAfter;
  }

  lemma LinksOf(step: Step, t: Tables, l: Look)
    ensures Do(step, t, l).links == LinksAfter(step, t, l)
  {
    hide LinksAfter;
  }

  lemma EventsOf(step: Step, t: Tables, l: Look)
    ensures Do(step, t, l).events == EventsAfter(step, t, l)
  {
    hide EventsAfter;
  }

  lemma ApprovalEventsOf(step: Step, t: Tables, l: Look)
    ensures Do(step, t, l).approvalEvents == ApprovalEventsAfter(step, t, l)
  {
    hide ApprovalEventsAfter;
  }

  lemma SuppressionsOf(step: Step, t: Tables, l: Look)
    ensures Do(step, t, l).suppressions == SuppressionsAfter(step, t, l)
  {
    hide SuppressionsAfter;
  }

  lemma RecipientsOf(step: Step, t: Tables, l: Look)
    ensures Do(step, t, l).recipients == RecipientsAfter(step, t, l)
  {
    hide RecipientsAfter;
  }

  lemma SourcePeopleOf(step: Step, t: Tables, l: Look)
    ensures Do(step, t, l).sourcePeople == SourcePeopleAfter(step, t, l)
  {
    hide SourcePeopleAfter;
  }

  lemma UnsubscribesOf(step: Step, t: Tables, l: Look)
    ensures Do(step, t, l).unsubscribes == UnsubscribesAfter(step, t, l)
  {
    hide UnsubscribesAfter;
  }

  lemma SourcesOf(step: Step, t: Tables, l: Look)
    ensures Do(step, t, l).sources == SourcesAfter(step, t, l)
  {
    hide SourcesAfter;
  }

  lemma StandInsReplaceThePerson(t: Tables, l: Look)
    ensures forall k: (Id, nat) | HitsStandIn(t, l, k) :: k in t.people && IsPersons(l, t.people[k])
  {
    hide Lower;
  }

  lemma SameStandIn(t: Tables, u: Tables, l: Look, k: (Id, nat))
    requires u.people == t.people && u.sends == t.sends
    ensures HitsStandIn(u, l, k) == HitsStandIn(t, l, k)
  {
    hide Lower;
  }

  lemma DoSends(step: Step, t: Tables, l: Look)
    requires IsLook(l)
    ensures LessSends(t, Do(step, t, l), l)
  {
    hide Lower, Names, LinkNames, Alone, RecipientsAfter, MembershipsAfter, QueueAfter, TasksAfter, LinksAfter,
      EventsAfter, ApprovalsAfter, PeopleAfter, ApprovalEventsAfter, SourcesAfter, SourcePeopleAfter, VersionsAfter,
      SensitiveChangesAfter, ContentViewsAfter, SuppressionsAfter, RemovalsAfter, UnsubscribesAfter,
      ReactivationsAfter, InboxAfter, TemplateArchiversAfter, ListArchiversAfter;
    Constants(l);
  }

  lemma DoApprovalEvents(step: Step, t: Tables, l: Look)
    requires IsLook(l)
    ensures LessApprovalEvents(t, Do(step, t, l), l)
  {
    hide Lower, Names, LinkNames, Alone, RecipientsAfter, MembershipsAfter, QueueAfter, TasksAfter, LinksAfter,
      EventsAfter, ApprovalsAfter, PeopleAfter, SendsAfter, SourcesAfter, SourcePeopleAfter, VersionsAfter,
      SensitiveChangesAfter, ContentViewsAfter, SuppressionsAfter, RemovalsAfter, UnsubscribesAfter,
      ReactivationsAfter, InboxAfter, TemplateArchiversAfter, ListArchiversAfter;
    Constants(l);
  }

  lemma DoSources(step: Step, t: Tables, l: Look)
    requires IsLook(l)
    ensures LessSources(t, Do(step, t, l), l)
  {
    hide Lower, Names, LinkNames, Alone, RecipientsAfter, MembershipsAfter, QueueAfter, TasksAfter, LinksAfter,
      EventsAfter, ApprovalsAfter, PeopleAfter, SendsAfter, ApprovalEventsAfter, SourcePeopleAfter, VersionsAfter,
      SensitiveChangesAfter, ContentViewsAfter, SuppressionsAfter, RemovalsAfter, UnsubscribesAfter,
      ReactivationsAfter, InboxAfter, TemplateArchiversAfter, ListArchiversAfter;
    Constants(l);
  }

  lemma DoSourcePeople(step: Step, t: Tables, l: Look)
    requires IsLook(l)
    ensures LessSourcePeople(t, Do(step, t, l), l)
  {
    hide Lower, Names, LinkNames, Alone, RecipientsAfter, MembershipsAfter, QueueAfter, TasksAfter, LinksAfter,
      EventsAfter, ApprovalsAfter, PeopleAfter, SendsAfter, ApprovalEventsAfter, SourcesAfter, VersionsAfter,
      SensitiveChangesAfter, ContentViewsAfter, SuppressionsAfter, RemovalsAfter, UnsubscribesAfter,
      ReactivationsAfter, InboxAfter, TemplateArchiversAfter, ListArchiversAfter;
    Constants(l);
  }

  lemma DoSuppressions(step: Step, t: Tables, l: Look)
    requires IsLook(l)
    ensures LessSuppressions(t, Do(step, t, l), l)
  {
    hide Lower, Names, LinkNames, Alone, RecipientsAfter, MembershipsAfter, QueueAfter, TasksAfter, LinksAfter,
      EventsAfter, ApprovalsAfter, PeopleAfter, SendsAfter, ApprovalEventsAfter, SourcesAfter, SourcePeopleAfter,
      VersionsAfter, SensitiveChangesAfter, ContentViewsAfter, RemovalsAfter, UnsubscribesAfter, ReactivationsAfter,
      InboxAfter, TemplateArchiversAfter, ListArchiversAfter;
    Constants(l);
  }

  lemma DoReactivations(step: Step, t: Tables, l: Look)
    requires IsLook(l)
    ensures LessReactivations(t, Do(step, t, l), l)
  {
    hide Lower, Names, LinkNames, Alone, RecipientsAfter, MembershipsAfter, QueueAfter, TasksAfter, LinksAfter,
      EventsAfter, ApprovalsAfter, PeopleAfter, SendsAfter, ApprovalEventsAfter, SourcesAfter, SourcePeopleAfter,
      VersionsAfter, SensitiveChangesAfter, ContentViewsAfter, SuppressionsAfter, RemovalsAfter, UnsubscribesAfter,
      InboxAfter, TemplateArchiversAfter, ListArchiversAfter;
    Constants(l);
  }

  lemma DoInbox(step: Step, t: Tables, l: Look)
    requires IsLook(l)
    ensures LessInbox(t, Do(step, t, l), l)
  {
    hide Lower, Names, LinkNames, Alone, RecipientsAfter, MembershipsAfter, QueueAfter, TasksAfter, LinksAfter,
      EventsAfter, ApprovalsAfter, PeopleAfter, SendsAfter, ApprovalEventsAfter, SourcesAfter, SourcePeopleAfter,
      VersionsAfter, SensitiveChangesAfter, ContentViewsAfter, SuppressionsAfter, RemovalsAfter, UnsubscribesAfter,
      ReactivationsAfter, TemplateArchiversAfter, ListArchiversAfter;
    Constants(l);
  }

  lemma DoColumns(step: Step, t: Tables, l: Look)
    requires IsLook(l)
    ensures LessColumns(t, Do(step, t, l), l)
  {
    hide Lower, Names, LinkNames, Alone, RecipientsAfter, MembershipsAfter, QueueAfter, TasksAfter, LinksAfter,
      EventsAfter, ApprovalsAfter, PeopleAfter, SendsAfter, ApprovalEventsAfter, SourcesAfter, SourcePeopleAfter,
      VersionsAfter, SensitiveChangesAfter, ContentViewsAfter, SuppressionsAfter, UnsubscribesAfter,
      ReactivationsAfter, InboxAfter;
    Constants(l);
  }

  lemma DoRecords(step: Step, t: Tables, l: Look)
    requires IsLook(l)
    ensures LessRecords(t, Do(step, t, l), l)
  {
    hide Lower, Names, LinkNames, Alone, RecipientsAfter, MembershipsAfter, QueueAfter, TasksAfter, LinksAfter,
      EventsAfter, ApprovalsAfter, PeopleAfter, SendsAfter, ApprovalEventsAfter, SourcesAfter, SourcePeopleAfter,
      SuppressionsAfter, RemovalsAfter, UnsubscribesAfter, ReactivationsAfter, InboxAfter, TemplateArchiversAfter,
      ListArchiversAfter;
    Constants(l);
  }

  lemma DoAddresses(step: Step, t: Tables, l: Look)
    requires IsLook(l)
    ensures LessAddresses(t, Do(step, t, l), l)
  {
    hide Lower, Names, LinkNames, Alone, QueueAfter, TasksAfter, LinksAfter, EventsAfter, ApprovalsAfter,
      PeopleAfter, SendsAfter, ApprovalEventsAfter, SourcesAfter, SourcePeopleAfter, VersionsAfter,
      SensitiveChangesAfter, ContentViewsAfter, SuppressionsAfter, RemovalsAfter, ReactivationsAfter, InboxAfter,
      TemplateArchiversAfter, ListArchiversAfter;
    Constants(l);
  }

  /** Every statement only takes something of the person out. */
  lemma DoLessens(step: Step, t: Tables, l: Look)
    requires IsLook(l)
    ensures Lessens(t, Do(step, t, l), l)
  {
    hide Do, IsLook, LessQueue, LessTasks, LessLinks, LessEvents, LessApprovals, LessPeople, LessSends,
      LessApprovalEvents, LessSources, LessSourcePeople, LessSuppressions, LessReactivations, LessInbox, LessColumns,
      LessRecords, LessAddresses;
    DoQueue(step, t, l);
    DoTasks(step, t, l);
    DoLinks(step, t, l);
    DoEvents(step, t, l);
    DoApprovals(step, t, l);
    DoPeople(step, t, l);
    DoSends(step, t, l);
    DoApprovalEvents(step, t, l);
    DoSources(step, t, l);
    DoSourcePeople(step, t, l);
    DoSuppressions(step, t, l);
    DoReactivations(step, t, l);
    DoInbox(step, t, l);
    DoColumns(step, t, l);
    DoRecords(step, t, l);
    DoAddresses(step, t, l);
  }

  // ---- Taking out in turn ---------------------------------------------------

  /** A send that is the person's alone was so before. */
  lemma AloneBefore(t: Tables, u: Tables, l: Look, task: Id)
    requires LessQueue(t, u, l) && Alone(u, l, task)
    ensures Alone(t, l, task)
  {
    hide Names;
    var k :| k in u.queue && u.queue[k].task == task;
    assert k in t.queue && t.queue[k].task == task;
  }

  lemma AlonesBefore(t: Tables, u: Tables, l: Look)
    requires LessQueue(t, u, l)
    ensures forall task: Id | Alone(u, l, task) :: Alone(t, l, task)
  {
    hide Alone, LessQueue;
    forall task: Id | Alone(u, l, task)
      ensures Alone(t, l, task)
    {
      AloneBefore(t, u, l, task);
    }
  }

  lemma QueueInTurn(t: Tables, u: Tables, v: Tables, l: Look)
    requires LessQueue(t, u, l) && LessQueue(u, v, l)
    ensures LessQueue(t, v, l)
  {
    hide LessMail, Theirs, IsWaiting;
    forall k | k in v.queue
      ensures k in t.queue && LessMail(l, t.queue[k], v.queue[k])
    {
      MailInTurn(l, t.queue[k], u.queue[k], v.queue[k]);
    }
    forall k | k in t.queue && k !in v.queue
      ensures Theirs(l, t.queue[k]) && IsWaiting(t.queue[k])
    {
      if k in u.queue {
        WaitedBefore(l, t.queue[k], u.queue[k]);
      }
    }
  }

  lemma MailInTurn(l: Look, q: QueueRow, r: QueueRow, s: QueueRow)
    requires LessMail(l, q, r) && LessMail(l, r, s)
    ensures LessMail(l, q, s)
  {
    hide Theirs, MailNames;
  }

  lemma WaitedBefore(l: Look, q: QueueRow, r: QueueRow)
    requires LessMail(l, q, r) && Theirs(l, r) && IsWaiting(r)
    ensures Theirs(l, q) && IsWaiting(q)
  {
    hide Theirs, MailNames;
  }

  lemma TasksInTurn(t: Tables, u: Tables, v: Tables, l: Look)
    requires LessTasks(t, u, l) && LessTasks(u, v, l) && LessQueue(t, u, l)
    ensures LessTasks(t, v, l)
  {
    hide Lower, Names, LinkNames, Alone, LessQueue;
    AlonesBefore(t, u, l);
  }

  lemma LinksInTurn(t: Tables, u: Tables, v: Tables, l: Look)
    requires LessLinks(t, u, l) && LessLinks(u, v, l) && LessQueue(t, u, l)
    ensures LessLinks(t, v, l)
  {
    hide Lower, Names, LinkNames, Alone, LessQueue;
    AlonesBefore(t, u, l);
  }

  lemma EventsInTurn(t: Tables, u: Tables, v: Tables, l: Look)
    requires LessEvents(t, u, l) && LessEvents(u, v, l) && LessQueue(t, u, l)
    ensures LessEvents(t, v, l)
  {
    hide Lower, Names, LinkNames, Alone;
  }

  lemma ApprovalsInTurn(t: Tables, u: Tables, v: Tables, l: Look)
    requires LessApprovals(t, u, l) && LessApprovals(u, v, l)
    ensures LessApprovals(t, v, l)
  {
    hide Lower, Names, LinkNames, Alone;
  }

  lemma PeopleInTurn(t: Tables, u: Tables, v: Tables, l: Look)
    requires IsLook(l)
    requires LessPeople(t, u, l) && LessPeople(u, v, l)
    ensures LessPeople(t, v, l)
  {
    hide Lower, Names, LinkNames, Alone;
    Constants(l);
  }

  lemma SendsInTurn(t: Tables, u: Tables, v: Tables, l: Look)
    requires IsLook(l)
    requires LessSends(t, u, l) && LessSends(u, v, l) && LessPeople(t, u, l)
    ensures LessSends(t, v, l)
  {
    hide Lower, Names, LinkNames, Alone;
    Constants(l);
  }

  lemma ApprovalEventsInTurn(t: Tables, u: Tables, v: Tables, l: Look)
    requires LessApprovalEvents(t, u, l) && LessApprovalEvents(u, v, l)
    ensures LessApprovalEvents(t, v, l)
  {
    hide Lower, Names, LinkNames, Alone;
  }

  lemma SourcesInTurn(t: Tables, u: Tables, v: Tables, l: Look)
    requires LessSources(t, u, l) && LessSources(u, v, l) && LessSourcePeople(t, u, l)
    ensures LessSources(t, v, l)
  {
    hide Lower, Names, LinkNames, Alone;
  }

  lemma SourcePeopleInTurn(t: Tables, u: Tables, v: Tables, l: Look)
    requires LessSourcePeople(t, u, l) && LessSourcePeople(u, v, l)
    ensures LessSourcePeople(t, v, l)
  {
    hide Lower, Names, LinkNames, Alone;
  }

  lemma SuppressionsInTurn(t: Tables, u: Tables, v: Tables, l: Look)
    requires LessSuppressions(t, u, l) && LessSuppressions(u, v, l) && LessQueue(t, u, l)
    ensures LessSuppressions(t, v, l)
  {
    hide Lower, Names, LinkNames, Alone;
  }

  lemma ReactivationsInTurn(t: Tables, u: Tables, v: Tables, l: Look)
    requires LessReactivations(t, u, l) && LessReactivations(u, v, l)
    ensures LessReactivations(t, v, l)
  {
    hide Lower, Names, LinkNames, Alone;
  }

  lemma InboxInTurn(t: Tables, u: Tables, v: Tables, l: Look)
    requires LessInbox(t, u, l) && LessInbox(u, v, l)
    ensures LessInbox(t, v, l)
  {
    hide Lower, Names, LinkNames, Alone;
  }

  lemma ColumnsInTurn(t: Tables, u: Tables, v: Tables, l: Look)
    requires LessColumns(t, u, l) && LessColumns(u, v, l)
    ensures LessColumns(t, v, l)
  {
    hide Lower, Names, LinkNames, Alone;
  }

  lemma RecordsInTurn(t: Tables, u: Tables, v: Tables, l: Look)
    requires LessRecords(t, u, l) && LessRecords(u, v, l)
    ensures LessRecords(t, v, l)
  {
    hide Lower, Names, LinkNames, Alone;
  }

  lemma AddressesInTurn(t: Tables, u: Tables, v: Tables, l: Look)
    requires LessAddresses(t, u, l) && LessAddresses(u, v, l)
    ensures LessAddresses(t, v, l)
  {
    hide Lower, Names, LinkNames, Alone;
  }

  lemma LessensInTurn(t: Tables, u: Tables, v: Tables, l: Look)
    requires IsLook(l) && Lessens(t, u, l) && Lessens(u, v, l)
    ensures Lessens(t, v, l)
  {
    hide IsLook, LessQueue, LessTasks, LessLinks, LessEvents, LessApprovals, LessPeople, LessSends,
      LessApprovalEvents, LessSources, LessSourcePeople, LessSuppressions, LessReactivations, LessInbox, LessColumns,
      LessRecords, LessAddresses;
    QueueInTurn(t, u, v, l);
    TasksInTurn(t, u, v, l);
    LinksInTurn(t, u, v, l);
    EventsInTurn(t, u, v, l);
    ApprovalsInTurn(t, u, v, l);
    PeopleInTurn(t, u, v, l);
    SendsInTurn(t, u, v, l);
    ApprovalEventsInTurn(t, u, v, l);
    SourcesInTurn(t, u, v, l);
    SourcePeopleInTurn(t, u, v, l);
    SuppressionsInTurn(t, u, v, l);
    ReactivationsInTurn(t, u, v, l);
    InboxInTurn(t, u, v, l);
    ColumnsInTurn(t, u, v, l);
    RecordsInTurn(t, u, v, l);
    AddressesInTurn(t, u, v, l);
  }

  lemma LessensNothing(t: Tables, l: Look)
    ensures Lessens(t, t, l)
  {
    hide Lower, Names, LinkNames, Alone;
  }

  /** Every list of statements only takes something of the person out. */
  lemma {:induction false} DoAllLessens(steps: seq<Step>, t: Tables, l: Look)
    requires IsLook(l)
    ensures Lessens(t, DoAll(steps, t, l), l)
  {
    hide Lessens, Do, IsLook;
    if steps == [] {
      LessensNothing(t, l);
    } else {
      var u := Do(steps[0], t, l);
      DoLessens(steps[0], t, l);
      DoAllLessens(steps[1..], u, l);
      LessensInTurn(t, u, DoAll(steps[1..], u, l), l);
    }
  }

  lemma {:induction false} DoInTurn(a: seq<Step>, b: seq<Step>, t: Tables, l: Look)
    ensures DoAll(a + b, t, l) == DoAll(b, DoAll(a, t, l), l)
  {
    hide Do;
    if a == [] {
      assert a + b == b;
    } else {
      assert (a + b)[1..] == a[1..] + b;
      DoInTurn(a[1..], b, Do(a[0], t, l), l);
    }
  }

  lemma DoFirst(step: Step, steps: seq<Step>, t: Tables, l: Look)
    ensures DoAll([step] + steps, t, l) == DoAll(steps, Do(step, t, l), l)
  {
    hide Do;
    assert ([step] + steps)[1..] == steps;
  }

  // ---- Nothing left to do ---------------------------------------------------

  /** No row a statement would change is left. */
  predicate Idle(step: Step, t: Tables, l: Look) {
    match step
    case InvalidateSources => forall k | k in t.sources && SourceConcerns(t, l, k, t.sources[k]) ::
        t.sources[k].invalidated
    case CloseTokens => forall k | k in t.queue && Theirs(l, t.queue[k]) :: t.queue[k].token.None?
    case ClearLinks => forall k | k in t.links :: !HitsLink(t, l, t.links[k])
    case DropEvents => forall k | k in t.events :: !HitsEvent(t, l, t.events[k])
    case SendVariables => forall k | k in t.tasks :: !HitsVariables(t, l, k, t.tasks[k])
    case ApprovalVariables =>
      forall k | k in t.approvals && t.approvals[k].variables != NO_VARIABLES :: !Names(l, t.approvals[k].variables)
    case OwnInbox => forall k | k in t.inbox :: t.inbox[k].user != l.subject
    case NamingInbox => forall k | k in t.inbox :: !HitsItem(l, t.inbox[k])
    case QueuedRows => forall k | k in t.queue && Theirs(l, t.queue[k]) :: !IsWaiting(t.queue[k])
    case NamingBodies => forall k | k in t.queue :: !HitsBody(l, t.queue[k])
    case ApprovalChanges =>
      forall k | k in t.approvalEvents && t.approvalEvents[k].changes.Some? ::
          !Names(l, t.approvalEvents[k].changes.value)
    case ApprovalNotes => forall k | k in t.approvalEvents :: !HitsNote(l, t.approvalEvents[k])
    case Reasons => forall k | k in t.reactivations :: !HitsReason(l, t.reactivations[k])
    case Senders => forall k | k in t.tasks :: t.tasks[k].sentBy != l.subject
    case TemplateArchivers => forall k | k in t.templateArchivers :: t.templateArchivers[k] != Some(l.subject)
    case ListArchivers => forall k | k in t.listArchivers :: t.listArchivers[k] != Some(l.subject)
    case SourceOwners => forall k | k in t.sources :: t.sources[k].owner != l.subject
    case SourceTitles => forall k | k in t.sources :: !Names(l, t.sources[k].title)
    case SourcePeople => forall k | k in t.sourcePeople :: !IsPersons(l, t.sourcePeople[k])
    case Removers => forall k | k in t.removals :: t.removals[k] != l.subject
    case Reactivators => forall k | k in t.reactivations :: t.reactivations[k].actor != Some(l.subject)
    case ApprovalActors => forall k | k in t.approvalEvents :: t.approvalEvents[k].actor != Some(l.subject)
    case Submitters => forall k | k in t.approvals :: t.approvals[k].submitter != l.subject
    case Authors => forall k | k in t.versions :: t.versions[k].sub != Some(l.subject)
    case SensitiveActors => forall k | k in t.sensitiveChanges :: t.sensitiveChanges[k].sub != Some(l.subject)
    case ViewActors => forall k | k in t.contentViews :: t.contentViews[k].sub != Some(l.subject)
    case StandIns => forall k | k in t.people :: !CanStandIn(t, l, k)
    case SendLinks => forall k | k in t.sends :: !HitsSend(t, l, k)
    case ApprovalPeople => forall k | k in t.people :: !IsPersons(l, t.people[k])
    case Suppressions => forall a | a in t.suppressions :: !HitsSuppression(t, l, a, t.suppressions[a])
    case Unsubscribes => forall u | u in t.unsubscribes :: u.0 !in l.emails
    case OwnMail => forall k | k in t.queue && Theirs(l, t.queue[k]) :: !IsFinal(t.queue[k])
    case Memberships => forall k | k in t.memberships :: !HitsMembership(t, l, t.memberships[k].1)
    case Recipients => forall k | k in t.recipients :: !IsPersons(l, t.recipients[k])
  }

  /** What a statement is about. */
  datatype Group = Mail | Sending | Traces | People | Requests | Forms | Actors | Records | Lists

  function GroupOf(step: Step): (g: Group) {
    match step
    case CloseTokens | QueuedRows | NamingBodies | OwnMail => Mail
    case ClearLinks | SendVariables | Senders => Sending
    case DropEvents | Suppressions => Traces
    case StandIns | SendLinks | ApprovalPeople => People
    case ApprovalVariables | ApprovalChanges | ApprovalNotes | ApprovalActors | Submitters => Requests
    case InvalidateSources | SourceOwners | SourceTitles | SourcePeople => Forms
    case TemplateArchivers | ListArchivers | Removers | Authors | SensitiveActors | ViewActors => Actors
    case Reasons | Reactivators | OwnInbox | NamingInbox => Records
    case Unsubscribes | Memberships | Recipients => Lists
  }

  /** Whether a mail is one a statement would change. */
  predicate MailIsIdle(step: Step, l: Look, q: QueueRow) {
    match step
    case CloseTokens => Theirs(l, q) ==> q.token.None?
    case QueuedRows => Theirs(l, q) ==> !IsWaiting(q)
    case NamingBodies => !HitsBody(l, q)
    case OwnMail => Theirs(l, q) ==> !IsFinal(q)
    case _ => true
  }

  lemma LessMailStaysIdle(step: Step, l: Look, q: QueueRow, r: QueueRow)
    requires GroupOf(step) == Mail && LessMail(l, q, r) && MailIsIdle(step, l, q)
    ensures MailIsIdle(step, l, r)
  {
    hide Theirs, MailNames;
  }

  lemma IdleIsMailIdle(step: Step, t: Tables, l: Look)
    requires GroupOf(step) == Mail
    ensures Idle(step, t, l) <==> forall k | k in t.queue :: MailIsIdle(step, l, t.queue[k])
  {
    hide Theirs, MailNames, HitsBody;
  }

  lemma MailStaysIdle(step: Step, t: Tables, u: Tables, l: Look)
    requires GroupOf(step) == Mail && LessQueue(t, u, l) && Idle(step, t, l)
    ensures Idle(step, u, l)
  {
    hide Theirs, Idle, MailIsIdle, LessMail, GroupOf;
    IdleIsMailIdle(step, t, l);
    IdleIsMailIdle(step, u, l);
    forall k | k in u.queue
      ensures MailIsIdle(step, l, u.queue[k])
    {
      LessMailStaysIdle(step, l, t.queue[k], u.queue[k]);
    }
  }

  lemma SendingStaysIdle(step: Step, t: Tables, u: Tables, l: Look)
    requires GroupOf(step) == Sending && IsLook(l)
    requires LessQueue(t, u, l) && LessTasks(t, u, l) && LessLinks(t, u, l) && Idle(step, t, l)
    ensures Idle(step, u, l)
  {
    hide Names, LinkNames, Alone, LessQueue, IsLook;
    Constants(l);
    AlonesBefore(t, u, l);
  }

  lemma TracesStayIdle(step: Step, t: Tables, u: Tables, l: Look)
    requires GroupOf(step) == Traces
    requires LessQueue(t, u, l) && LessEvents(t, u, l) && LessSuppressions(t, u, l) && Idle(step, t, l)
    ensures Idle(step, u, l)
  {
    hide Theirs, MailNames;
  }

  lemma PeopleStayIdle(step: Step, t: Tables, u: Tables, l: Look)
    requires GroupOf(step) == People && IsLook(l) && !TakesStandIn(l)
    requires LessPeople(t, u, l) && LessSends(t, u, l) && Idle(step, t, l)
    ensures Idle(step, u, l)
  {
    hide Idle, IsLook, LessPeople, LessSends;
    match step {
      case StandIns => StandInsStayIdle(t, u, l);
      case SendLinks => SendLinksStayIdle(t, u, l);
      case ApprovalPeople => PersonsStayIdle(t, u, l);
    }
  }

  lemma StandInsStayIdle(t: Tables, u: Tables, l: Look)
    requires IsLook(l) && !TakesStandIn(l) && LessPeople(t, u, l) && LessSends(t, u, l) && Idle(StandIns, t, l)
    ensures Idle(StandIns, u, l)
  {
    hide Lower, Names;
    Constants(l);
  }

  lemma SendLinksStayIdle(t: Tables, u: Tables, l: Look)
    requires IsLook(l) && !TakesStandIn(l) && LessPeople(t, u, l) && LessSends(t, u, l) && Idle(SendLinks, t, l)
    ensures Idle(SendLinks, u, l)
  {
    hide Lower, Names, CanStandIn;
    Constants(l);
  }

  lemma PersonsStayIdle(t: Tables, u: Tables, l: Look)
    requires IsLook(l) && !TakesStandIn(l) && LessPeople(t, u, l) && Idle(ApprovalPeople, t, l)
    ensures Idle(ApprovalPeople, u, l)
  {
    hide Lower, Names, CanStandIn;
    Constants(l);
  }

  lemma RequestsStayIdle(step: Step, t: Tables, u: Tables, l: Look)
    requires GroupOf(step) == Requests && IsLook(l)
    requires LessApprovals(t, u, l) && LessApprovalEvents(t, u, l) && Idle(step, t, l)
    ensures Idle(step, u, l)
  {
    hide Idle, IsLook, LessApprovals, LessApprovalEvents;
    if step == ApprovalVariables || step == Submitters {
      ApprovalsStayIdle(step, t, u, l);
    } else {
      DecisionsStayIdle(step, t, u, l);
    }
  }

  lemma ApprovalsStayIdle(step: Step, t: Tables, u: Tables, l: Look)
    requires (step == ApprovalVariables || step == Submitters) && IsLook(l)
    requires LessApprovals(t, u, l) && Idle(step, t, l)
    ensures Idle(step, u, l)
  {
    hide Lower, Names;
    Constants(l);
  }

  lemma DecisionsStayIdle(step: Step, t: Tables, u: Tables, l: Look)
    requires (step == ApprovalChanges || step == ApprovalNotes || step == ApprovalActors) && IsLook(l)
    requires LessApprovalEvents(t, u, l) && Idle(step, t, l)
    ensures Idle(step, u, l)
  {
    hide Lower, Names;
    Constants(l);
  }

  lemma FormsStayIdle(step: Step, t: Tables, u: Tables, l: Look)
    requires GroupOf(step) == Forms && IsLook(l)
    requires LessSources(t, u, l) && LessSourcePeople(t, u, l) && Idle(step, t, l)
    ensures Idle(step, u, l)
  {
    hide Lower, Names;
    Constants(l);
  }

  lemma ActorsStayIdle(step: Step, t: Tables, u: Tables, l: Look)
    requires GroupOf(step) == Actors && IsLook(l)
    requires LessColumns(t, u, l) && LessRecords(t, u, l) && Idle(step, t, l)
    ensures Idle(step, u, l)
  {
  }

  lemma RecordsStayIdle(step: Step, t: Tables, u: Tables, l: Look)
    requires GroupOf(step) == Records && IsLook(l)
    requires LessReactivations(t, u, l) && LessInbox(t, u, l) && Idle(step, t, l)
    ensures Idle(step, u, l)
  {
    hide Names;
    Constants(l);
  }

  lemma ListsStayIdle(step: Step, t: Tables, u: Tables, l: Look)
    requires GroupOf(step) == Lists && LessAddresses(t, u, l) && Idle(step, t, l)
    ensures Idle(step, u, l)
  {
    hide Lower;
  }

  /** A statement that has nothing to do keeps having nothing to do, whatever
      more is taken out; unless a stand-in put in is the person's again. */
  lemma IdleStays(step: Step, t: Tables, u: Tables, l: Look)
    requires GroupOf(step) == People ==> !TakesStandIn(l)
    requires IsLook(l) && Lessens(t, u, l) && Idle(step, t, l)
    ensures Idle(step, u, l)
  {
    hide Idle, IsLook, GroupOf, LessQueue, LessTasks, LessLinks, LessEvents, LessApprovals, LessPeople, LessSends,
      LessApprovalEvents, LessSources, LessSourcePeople, LessSuppressions, LessReactivations, LessInbox, LessColumns,
      LessRecords, LessAddresses;
    match GroupOf(step) {
      case Mail => MailStaysIdle(step, t, u, l);
      case Sending => SendingStaysIdle(step, t, u, l);
      case Traces => TracesStayIdle(step, t, u, l);
      case People => PeopleStayIdle(step, t, u, l);
      case Requests => RequestsStayIdle(step, t, u, l);
      case Forms => FormsStayIdle(step, t, u, l);
      case Actors => ActorsStayIdle(step, t, u, l);
      case Records => RecordsStayIdle(step, t, u, l);
      case Lists => ListsStayIdle(step, t, u, l);
    }
  }

  /** A statement leaves itself nothing to do, but for the stand-ins put in last
      when they are the person's. */
  lemma DoneIsIdle(step: Step, t: Tables, l: Look)
    requires IsLook(l) && (step == ApprovalPeople ==> !TakesStandIn(l))
    ensures Idle(step, Do(step, t, l), l)
  {
    hide Do, Idle, IsLook;
    if step == StandIns {
      StandInsAreDone(t, l);
      assert Idle(step, Do(step, t, l), l) by {
        StandInsIdle(Do(step, t, l), l);
      }
    } else if step == SendVariables || step == ClearLinks {
      SendsAreDone(step, t, l);
    } else {
      match step {
        case CloseTokens | QueuedRows | NamingBodies | OwnMail | DropEvents | Suppressions =>
          MailIsDone(step, t, l);
        case ApprovalVariables | OwnInbox | NamingInbox | ApprovalChanges | ApprovalNotes | Reasons | InvalidateSources
             | SourceTitles =>
          TextsAreDone(step, t, l);
        case SourcePeople | SendLinks | ApprovalPeople =>
          AddressesAreDone(step, t, l);
        case Unsubscribes | Memberships | Recipients =>
          ListsAreDone(step, t, l);
        case TemplateArchivers | ListArchivers | Removers | Authors | SensitiveActors | ViewActors =>
          ActorsAreDone(step, t, l);
        case _ =>
          SubjectsAreDone(step, t, l);
      }
    }
  }

  lemma StandInsIdle(u: Tables, l: Look)
    requires forall k | k in u.people :: !CanStandIn(u, l, k)
    ensures Idle(StandIns, u, l)
  {
    hide CanStandIn;
  }

  lemma MailIsDone(step: Step, t: Tables, l: Look)
    requires IsLook(l)
    requires step == CloseTokens || step == QueuedRows || step == NamingBodies || step == OwnMail || step ==
             DropEvents || step == Suppressions
    ensures Idle(step, Do(step, t, l), l)
  {
    hide Lower, Names, LinkNames, Alone, CanStandIn, RecipientsAfter, MembershipsAfter, TasksAfter, LinksAfter,
      ApprovalsAfter, PeopleAfter, SendsAfter, ApprovalEventsAfter, SourcesAfter, SourcePeopleAfter, VersionsAfter,
      SensitiveChangesAfter, ContentViewsAfter, RemovalsAfter, UnsubscribesAfter, ReactivationsAfter, InboxAfter,
      TemplateArchiversAfter, ListArchiversAfter;
    Constants(l);
  }

  lemma TextsAreDone(step: Step, t: Tables, l: Look)
    requires IsLook(l)
    requires step == ApprovalVariables || step == OwnInbox || step == NamingInbox || step == ApprovalChanges ||
             step == ApprovalNotes || step == Reasons || step == InvalidateSources || step ==
             SourceTitles
    ensures Idle(step, Do(step, t, l), l)
  {
    hide Lower, Names, LinkNames, Alone, CanStandIn, RecipientsAfter, MembershipsAfter, QueueAfter, TasksAfter,
      LinksAfter, EventsAfter, PeopleAfter, SendsAfter, VersionsAfter, SensitiveChangesAfter, ContentViewsAfter,
      SuppressionsAfter, RemovalsAfter, UnsubscribesAfter, TemplateArchiversAfter, ListArchiversAfter;
    Constants(l);
  }

  lemma SubjectsAreDone(step: Step, t: Tables, l: Look)
    requires IsLook(l)
    requires step == Senders || step == SourceOwners || step == Reactivators || step == ApprovalActors
             || step == Submitters
    ensures Idle(step, Do(step, t, l), l)
  {
    hide Lower, Names, LinkNames, Alone, CanStandIn, RecipientsAfter, MembershipsAfter, QueueAfter, LinksAfter,
      EventsAfter, PeopleAfter, SendsAfter, SourcePeopleAfter, VersionsAfter, SensitiveChangesAfter,
      ContentViewsAfter, SuppressionsAfter, RemovalsAfter, UnsubscribesAfter, InboxAfter, TemplateArchiversAfter,
      ListArchiversAfter;
    Constants(l);
  }

  lemma ActorsAreDone(step: Step, t: Tables, l: Look)
    requires IsLook(l)
    requires GroupOf(step) == Actors
    ensures Idle(step, Do(step, t, l), l)
  {
    hide Lower, Names, LinkNames, Alone, CanStandIn, RecipientsAfter, MembershipsAfter, QueueAfter, TasksAfter,
      LinksAfter, EventsAfter, ApprovalsAfter, PeopleAfter, SendsAfter, ApprovalEventsAfter, SourcesAfter,
      SourcePeopleAfter, SuppressionsAfter, UnsubscribesAfter, ReactivationsAfter, InboxAfter;
    Constants(l);
  }

  lemma AddressesAreDone(step: Step, t: Tables, l: Look)
    requires IsLook(l)
    requires step == SourcePeople || step == SendLinks || (step == ApprovalPeople && !TakesStandIn(l))
    ensures Idle(step, Do(step, t, l), l)
  {
    hide Lower, Names, LinkNames, Alone, CanStandIn, RecipientsAfter, MembershipsAfter, QueueAfter, TasksAfter,
      LinksAfter, EventsAfter, ApprovalsAfter, ApprovalEventsAfter, SourcesAfter, VersionsAfter,
      SensitiveChangesAfter, ContentViewsAfter, SuppressionsAfter, RemovalsAfter, UnsubscribesAfter,
      ReactivationsAfter, InboxAfter, TemplateArchiversAfter, ListArchiversAfter;
    Constants(l);
  }

  lemma ListsAreDone(step: Step, t: Tables, l: Look)
    requires IsLook(l)
    requires GroupOf(step) == Lists
    ensures Idle(step, Do(step, t, l), l)
  {
    hide Lower, Names, LinkNames, Alone, CanStandIn, QueueAfter, TasksAfter, LinksAfter, EventsAfter, ApprovalsAfter,
      PeopleAfter, SendsAfter, ApprovalEventsAfter, SourcesAfter, SourcePeopleAfter, VersionsAfter,
      SensitiveChangesAfter, ContentViewsAfter, SuppressionsAfter, RemovalsAfter, ReactivationsAfter, InboxAfter,
      TemplateArchiversAfter, ListArchiversAfter;
    Constants(l);
  }

  lemma SendsAreDone(step: Step, t: Tables, l: Look)
    requires IsLook(l) && (step == SendVariables || step == ClearLinks)
    ensures Idle(step, Do(step, t, l), l)
  {
    hide Lower, Names, LinkNames, Alone;
    Constants(l);
    DoQueue(step, t, l);
    AlonesBefore(t, Do(step, t, l), l);
  }

  /** The first person of a request who can be stood in for. */
  lemma {:induction false} FirstToStandIn(t: Tables, l: Look, k: (Id, nat)) returns (first: (Id, nat))
    requires CanStandIn(t, l, k)
    ensures first.0 == k.0 && HitsStandIn(t, l, first)
    decreases k.1
  {
    hide CanStandIn;
    if o :| o in t.people && o.0 == k.0 && o.1 < k.1 && CanStandIn(t, l, o) {
      first := FirstToStandIn(t, l, o);
    } else {
      first := k;
    }
  }

  lemma StandInsAreDone(t: Tables, l: Look)
    requires IsLook(l)
    ensures forall k | k in Do(StandIns, t, l).people :: !CanStandIn(Do(StandIns, t, l), l, k)
  {
    hide Lower, HitsStandIn, Do;
    Constants(l);
    var u := Do(StandIns, t, l);
    PeopleOf(StandIns, t, l);
    StandInsReplaceThePerson(t, l);
    assert u.sends == t.sends by {
      SendsOf(StandIns, t, l);
    }
    if k: (Id, nat) :| k in u.people && CanStandIn(u, l, k) {
      assert u.people[k] == t.people[k];
      forall o | o in t.people && o.0 == k.0
        ensures Lower(t.people[o].email) != DELETED_EMAIL
      {
        var p := u.people[o];
        assert Lower(p.email) != DELETED_EMAIL;
      }
      assert CanStandIn(t, l, k);
      var first := FirstToStandIn(t, l, k);
      assert false;
    }
  }

  lemma SendsOf(step: Step, t: Tables, l: Look)
    ensures Do(step, t, l).sends == SendsAfter(step, t, l)
  {
    hide SendsAfter;
  }
}
