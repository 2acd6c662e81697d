// Calls that stop for mail in flight: which names the next call still finds,
// and which it does not.
module ErasureNames {
  import opened Options
  import opened Text
  import opened Erasure
  import opened ErasureProofs
  import opened ErasureDone
  import opened ErasureResults

  /** A name held for the person by anything but mail to them still waiting,
      which a call deletes. */
  predicate IsHeldForGood(t: Tables, subject: string, emails: set<string>, name: string) {
    || (exists k | k in t.queue ::
          t.queue[k].name == name && ToPerson(subject, emails, t.queue[k]) && !IsWaiting(t.queue[k]))
    || IsHeldElsewhere(t, subject, emails, name)
  }

  /** Tables that hold the same names outside the mail. */
  predicate SameElsewhere(t: Tables, u: Tables) {
    && u.recipients == t.recipients && u.people == t.people && u.sourcePeople == t.sourcePeople
    && u.versions == t.versions && u.sensitiveChanges == t.sensitiveChanges && u.contentViews == t.contentViews
    && u.approvals.Keys == t.approvals.Keys
    && (forall k | k in t.approvals :: u.approvals[k].submitter == t.approvals[k].submitter
                                       && u.approvals[k].submitterName == t.approvals[k].submitterName)
    && u.approvalEvents.Keys == t.approvalEvents.Keys
    && (forall k | k in t.approvalEvents :: u.approvalEvents[k].actor == t.approvalEvents[k].actor
                                            && u.approvalEvents[k].actorName == t.approvalEvents[k].actorName)
  }

  lemma SameElsewhereHolds(t: Tables, u: Tables, subject: string, emails: set<string>, name: string)
    requires SameElsewhere(t, u)
    ensures IsHeldElsewhere(u, subject, emails, name) <==> IsHeldElsewhere(t, subject, emails, name)
  {
    hide Lower;
  }

  predicate IsFirst(step: Step) {
    match step
    case InvalidateSources | CloseTokens | ClearLinks | DropEvents | SendVariables | ApprovalVariables | OwnInbox
       | NamingInbox | QueuedRows | NamingBodies | ApprovalChanges | ApprovalNotes | Reasons | Senders
       | TemplateArchivers | ListArchivers => true
    case _ => false
  }

  lemma FirstStepsAreFirst()
    ensures forall i | 0 <= i < |FIRST_STEPS| :: IsFirst(FIRST_STEPS[i])
  {
  }

  lemma FirstStepsPeople(step: Step, t: Tables, l: Look)
    requires IsFirst(step)
    ensures var u := Do(step, t, l);
            u.recipients == t.recipients && u.people == t.people && u.sourcePeople == t.sourcePeople
  {
    hide MembershipsAfter, QueueAfter, TasksAfter, LinksAfter, EventsAfter, ApprovalsAfter, SendsAfter,
      ApprovalEventsAfter, SourcesAfter, VersionsAfter, SensitiveChangesAfter, ContentViewsAfter, SuppressionsAfter,
      RemovalsAfter, UnsubscribesAfter, ReactivationsAfter, InboxAfter, TemplateArchiversAfter, ListArchiversAfter,
      Lower, HitsStandIn, Emptied;
  }

  lemma FirstStepsActors(step: Step, t: Tables, l: Look)
    requires IsFirst(step)
    ensures var u := Do(step, t, l);
            u.versions == t.versions && u.sensitiveChanges == t.sensitiveChanges && u.contentViews == t.contentViews
  {
    hide RecipientsAfter, MembershipsAfter, QueueAfter, TasksAfter, LinksAfter, EventsAfter, ApprovalsAfter,
      PeopleAfter, SendsAfter, ApprovalEventsAfter, SourcesAfter, SourcePeopleAfter, SuppressionsAfter,
      RemovalsAfter, UnsubscribesAfter, ReactivationsAfter, InboxAfter, TemplateArchiversAfter, ListArchiversAfter;
  }

  lemma FirstStepsSubmitters(step: Step, t: Tables, l: Look)
    requires IsFirst(step)
    ensures var u := Do(step, t, l);
            && u.approvals.Keys == t.approvals.Keys
            && (forall k | k in t.approvals :: u.approvals[k].submitter == t.approvals[k].submitter
                                               && u.approvals[k].submitterName == t.approvals[k].submitterName)
  {
    hide RecipientsAfter, MembershipsAfter, QueueAfter, TasksAfter, LinksAfter, EventsAfter, PeopleAfter, SendsAfter,
      ApprovalEventsAfter, SourcesAfter, SourcePeopleAfter, VersionsAfter, SensitiveChangesAfter, ContentViewsAfter,
      SuppressionsAfter, RemovalsAfter, UnsubscribesAfter, ReactivationsAfter, InboxAfter, TemplateArchiversAfter,
      ListArchiversAfter, Names;
  }

  lemma FirstStepsDecisions(step: Step, t: Tables, l: Look)
    requires IsFirst(step)
    ensures var u := Do(step, t, l);
            && u.approvalEvents.Keys == t.approvalEvents.Keys
            && (forall k | k in t.approvalEvents :: u.approvalEvents[k].actor == t.approvalEvents[k].actor
                                                    && u.approvalEvents[k].actorName == t.approvalEvents[k].actorName)
  {
    hide RecipientsAfter, MembershipsAfter, QueueAfter, TasksAfter, LinksAfter, EventsAfter, ApprovalsAfter,
      PeopleAfter, SendsAfter, SourcesAfter, SourcePeopleAfter, VersionsAfter, SensitiveChangesAfter,
      ContentViewsAfter, SuppressionsAfter, RemovalsAfter, UnsubscribesAfter, ReactivationsAfter, InboxAfter,
      TemplateArchiversAfter, ListArchiversAfter, Names;
  }

  lemma FirstStepsElsewhere(step: Step, t: Tables, l: Look)
    requires IsFirst(step)
    ensures SameElsewhere(t, Do(step, t, l))
  {
    hide Do;
    FirstStepsPeople(step, t, l);
    FirstStepsActors(step, t, l);
    FirstStepsSubmitters(step, t, l);
    FirstStepsDecisions(step, t, l);
  }

  predicate SameAddressee(q: QueueRow, r: QueueRow) {
    r.name == q.name && r.email == q.email && r.sub == q.sub && r.status == q.status
  }

  lemma FirstStepsMail(step: Step, t: Tables, l: Look)
    requires IsFirst(step)
    ensures forall k | k in t.queue && !(Theirs(l, t.queue[k]) && IsWaiting(t.queue[k])) :: k in Do(step, t, l).queue
    ensures forall k | k in Do(step, t, l).queue :: k in t.queue && SameAddressee(t.queue[k], Do(step, t, l).queue[k])
  {
    hide RecipientsAfter, MembershipsAfter, TasksAfter, LinksAfter, EventsAfter, ApprovalsAfter, PeopleAfter,
      SendsAfter, ApprovalEventsAfter, SourcesAfter, SourcePeopleAfter, VersionsAfter, SensitiveChangesAfter,
      ContentViewsAfter, SuppressionsAfter, RemovalsAfter, UnsubscribesAfter, ReactivationsAfter, InboxAfter,
      TemplateArchiversAfter, ListArchiversAfter, Lower, Names, MailNames, Theirs;
  }

  lemma FirstStepKeepsNames(step: Step, t: Tables, l: Look, name: string)
    requires IsFirst(step)
    ensures IsHeldForGood(Do(step, t, l), l.subject, l.emails, name) <==> IsHeldForGood(t, l.subject, l.emails, name)
  {
    hide Do, Lower, IsHeldElsewhere, SameElsewhere;
    FirstStepsElsewhere(step, t, l);
    SameElsewhereHolds(t, Do(step, t, l), l.subject, l.emails, name);
    FirstStepsMail(step, t, l);
  }

  lemma {:induction false} FirstStepsKeepNames(steps: seq<Step>, t: Tables, l: Look, name: string)
    requires forall i | 0 <= i < |steps| :: IsFirst(steps[i])
    ensures IsHeldForGood(DoAll(steps, t, l), l.subject, l.emails, name)
            <==> IsHeldForGood(t, l.subject, l.emails, name)
  {
    hide Do, IsHeldForGood;
    if steps != [] {
      FirstStepKeepsNames(steps[0], t, l, name);
      FirstStepsKeepNames(steps[1..], Do(steps[0], t, l), l, name);
    }
  }

  lemma HeldIsNamed(t: Tables, subject: string, emails: set<string>, name: string)
    requires IsHeld(t, subject, emails, name)
    ensures name in AllNames(t)
  {
    hide Lower;
  }

  /** A needle is one of the addresses or the full name of someone held. */
  lemma NeedlesExactly(t: Tables, subject: string, emails: set<string>, needle: string)
    ensures needle in Needles(t, subject, emails) <==>
              needle in emails
              || exists name ::
                   IsHeld(t, subject, emails, name) && IsSearchable(FullName(name)) && needle == FullName(name)
  {
    hide IsHeld, AllNames, FullName, IsSearchable;
    if name :| IsHeld(t, subject, emails, name) && IsSearchable(FullName(name)) && needle == FullName(name) {
      HeldIsNamed(t, subject, emails, name);
    }
  }

  /** After a call that stops for mail in flight, exactly the names held for
      good are still looked for: a name held only by mail to the person that
      was still waiting is not found again. */
  lemma NamesAfterWaiting(db: Db, c: Command, at: int, needle: string)
    requires IsCommand(c) && Erase(db, c, at).1.InProgress?
    ensures needle in LookOf(Erase(db, c, at).0.tables, c).needles <==>
              needle in Emails(c)
              || exists name :: IsHeldForGood(db.tables, c.subject, Emails(c), name)
                                && IsSearchable(FullName(name)) && needle == FullName(name)
  {
    hide Erase, IsLook, IsHeld, IsHeldForGood, FullName, IsSearchable, Needles, Emails;
    var t := db.tables;
    var u := Erase(db, c, at).0.tables;
    NeedlesExactly(u, c.subject, Emails(c), needle);
    forall name
      ensures IsHeld(u, c.subject, Emails(c), name) <==> IsHeldForGood(t, c.subject, Emails(c), name)
    {
      HeldAfterWaiting(db, c, at, name);
    }
  }

  lemma HeldAfterWaiting(db: Db, c: Command, at: int, name: string)
    requires IsCommand(c) && Erase(db, c, at).1.InProgress?
    ensures IsHeld(Erase(db, c, at).0.tables, c.subject, Emails(c), name)
            <==> IsHeldForGood(db.tables, c.subject, Emails(c), name)
  {
    hide DoAll, Refused, CanCommit, MailInFlight, IsLook, IsHeld, IsHeldForGood, Needles, Idle, Emails;
    var l := LookOf(db.tables, c);
    CommandLooks(db.tables, c);
    EachIsDone(FIRST_STEPS, QueuedRows, db.tables, l);
    FirstStepsAreFirst();
    FirstStepsKeepNames(FIRST_STEPS, db.tables, l, name);
    NothingWaits(DoAll(FIRST_STEPS, db.tables, l), l, name);
  }

  lemma NothingWaits(u: Tables, l: Look, name: string)
    requires Idle(QueuedRows, u, l)
    ensures IsHeld(u, l.subject, l.emails, name) <==> IsHeldForGood(u, l.subject, l.emails, name)
  {
    hide Lower, IsHeldElsewhere;
    assert forall k | k in u.queue && ToPerson(l.subject, l.emails, u.queue[k]) :: !IsWaiting(u.queue[k]) by {
      assert forall k | k in u.queue && Theirs(l, u.queue[k]) :: !IsWaiting(u.queue[k]);
    }
  }

  // ---- Whole runs ----------------------------------------------------------

  /** A name held by something no call and nothing else takes away before the
      last: a row outside the mail, or mail to the person that went out or
      failed for good. */
  predicate IsAnchored(t: Tables, subject: string, emails: set<string>, name: string) {
    || (exists k | k in t.queue ::
       t.queue[k].name == name && ToPerson(subject, emails, t.queue[k]) && IsFinal(t.queue[k]))
    || IsHeldElsewhere(t, subject, emails, name)
  }

  /** What goes on between the calls: mail is queued, sent, retried or failed,
      and rows are added; mail that is final stays, and so do the people, the
      actors and their names. */
  predicate GoesOn(t: Tables, u: Tables) {
    && (forall k | k in t.queue && IsFinal(t.queue[k]) ::
          k in u.queue && u.queue[k].name == t.queue[k].name && u.queue[k].email == t.queue[k].email
          && u.queue[k].sub == t.queue[k].sub && IsFinal(u.queue[k]))
    && (forall k | k in t.recipients :: k in u.recipients && u.recipients[k] == t.recipients[k])
    && (forall k | k in t.people :: k in u.people && u.people[k] == t.people[k])
    && (forall k | k in t.sourcePeople :: k in u.sourcePeople && u.sourcePeople[k] == t.sourcePeople[k])
    && (forall k | k in t.approvals :: k in u.approvals && u.approvals[k].submitter == t.approvals[k].submitter
                                       && u.approvals[k].submitterName == t.approvals[k].submitterName)
    && (forall k | k in t.approvalEvents ::
       k in u.approvalEvents && u.approvalEvents[k].actor == t.approvalEvents[k].actor
                                            && u.approvalEvents[k].actorName == t.approvalEvents[k].actorName)
    && (forall k | k in t.versions :: k in u.versions && u.versions[k] == t.versions[k])
    && (forall k | k in t.sensitiveChanges :: k in u.sensitiveChanges && u.sensitiveChanges[k] == t.sensitiveChanges[k])
    && (forall k | k in t.contentViews :: k in u.contentViews && u.contentViews[k] == t.contentViews[k])
  }

  lemma GoingOnKeepsAnchors(t: Tables, u: Tables, subject: string, emails: set<string>, name: string)
    requires GoesOn(t, u) && IsAnchored(t, subject, emails, name)
    ensures IsAnchored(u, subject, emails, name)
  {
    hide Lower;
    if k :| k in t.queue && t.queue[k].name == name && ToPerson(subject, emails, t.queue[k]) && IsFinal(t.queue[k]) {
      assert k in u.queue && u.queue[k].name == name;
    } else {
      ElsewhereGoesOn(t, u, subject, emails, name);
    }
  }

  lemma ElsewhereGoesOn(t: Tables, u: Tables, subject: string, emails: set<string>, name: string)
    requires GoesOn(t, u) && IsHeldElsewhere(t, subject, emails, name)
    ensures IsHeldElsewhere(u, subject, emails, name)
  {
    hide Lower;
  }

  lemma {:induction false} FirstStepsKeepAnchors(steps: seq<Step>, t: Tables, l: Look, name: string)
    requires forall i | 0 <= i < |steps| :: IsFirst(steps[i])
    requires IsAnchored(t, l.subject, l.emails, name)
    ensures IsAnchored(DoAll(steps, t, l), l.subject, l.emails, name)
  {
    hide Do, Lower, IsHeldElsewhere;
    if steps != [] {
      var u := Do(steps[0], t, l);
      FirstStepsElsewhere(steps[0], t, l);
      SameElsewhereHolds(t, u, l.subject, l.emails, name);
      FirstStepsMail(steps[0], t, l);
      FirstStepsKeepAnchors(steps[1..], u, l, name);
    }
  }

  lemma AnchoredIsLookedFor(t: Tables, c: Command, name: string)
    requires IsAnchored(t, c.subject, Emails(c), name) && IsSearchable(FullName(name))
    ensures FullName(name) in LookOf(t, c).needles
  {
    hide Lower, IsHeldElsewhere, FullName, IsSearchable, AllNames;
    assert IsHeld(t, c.subject, Emails(c), name);
    NeedlesExactly(t, c.subject, Emails(c), FullName(name));
  }

  /** Databases in turn: each is the one before gone on from, or what a call of
      the command that had to wait left. */
  predicate IsTrail(trail: seq<Db>, c: Command) {
    trail != [] && forall i | 0 <= i < |trail| - 1 :: IsMove(trail[i], trail[i + 1], c)
  }

  predicate IsMove(s: Db, t: Db, c: Command) {
    GoesOn(s.tables, t.tables) || Erase(s, c, 0) == (t, InProgress)
  }

  lemma {:induction false} AnchorsHold(trail: seq<Db>, c: Command, name: string)
    requires IsTrail(trail, c) && IsAnchored(trail[0].tables, c.subject, Emails(c), name)
    ensures IsAnchored(trail[|trail| - 1].tables, c.subject, Emails(c), name)
  {
    hide GoesOn, IsAnchored, DoAll, MailInFlight, Needles;
    if |trail| > 1 {
      var before := trail[..|trail| - 1];
      AnchorsHold(before, c, name);
      var s, t := before[|before| - 1], trail[|trail| - 1];
      assert s == trail[|trail| - 2] && IsMove(s, t, c);
      if GoesOn(s.tables, t.tables) {
        GoingOnKeepsAnchors(s.tables, t.tables, c.subject, Emails(c), name);
      } else {
        FirstStepsAreFirst();
        FirstStepsKeepAnchors(FIRST_STEPS, s.tables, LookOf(s.tables, c), name);
      }
    }
  }

  /** No mail that had a status names them once a receipt is written. */
  lemma SentMailNamesNoOne(db: Db, c: Command, at: int)
    requires IsCommand(c) && c.request !in db.receipts && Erase(db, c, at).1.Completed?
    ensures var t, l := Erase(db, c, at).0.tables, LookOf(db.tables, c);
            forall k | k in t.queue && t.queue[k].status.Some? :: !MailNames(l, t.queue[k])
  {
    hide Erase, LookOf, IsCommand, Lessens, MailNames, Theirs, IsLook, NoActorIsThem, NoTextNamesThem;
    ReceiptMeansGone(db, c, at);
    CompletedErases(db, c, at);
    var t, l := Erase(db, c, at).0.tables, LookOf(db.tables, c);
    CommandLooks(db.tables, c);
    assert Idle(NamingBodies, t, l);
    forall k | k in t.queue && t.queue[k].status.Some?
      ensures !MailNames(l, t.queue[k])
    {
      StatusIsOne(t.queue[k]);
      assert !IsInFlight(l, t.queue[k]) && !HitsBody(l, t.queue[k]);
    }
  }

  /** However often the command is repeated while the mailer still has mail to
      finish, an anchored name is among the needles of the call that writes
      the receipt, and no text it searches holds it then. */
  lemma AnchoredNamesAreCleared(trail: seq<Db>, c: Command, name: string, at: int)
    requires IsCommand(c) && IsTrail(trail, c)
    requires IsAnchored(trail[0].tables, c.subject, Emails(c), name) && IsSearchable(FullName(name))
    requires c.request !in trail[|trail| - 1].receipts && Erase(trail[|trail| - 1], c, at).1.Completed?
    ensures var last := trail[|trail| - 1];
            var l := LookOf(last.tables, c);
            && FullName(name) in l.needles
            && NoTextNamesThem(Erase(last, c, at).0.tables, l)
            && forall k | k in Erase(last, c, at).0.tables.queue && Erase(last, c, at).0.tables.queue[k].status.Some? ::
                 !MailNames(l, Erase(last, c, at).0.tables.queue[k])
  {
    hide IsAnchored, Erase, LookOf, IsCommand, NoTextNamesThem, FullName, IsSearchable, MailNames;
    var last := trail[|trail| - 1];
    AnchorsHold(trail, c, name);
    AnchoredIsLookedFor(last.tables, c, name);
    ReceiptMeansGone(last, c, at);
    SentMailNamesNoOne(last, c, at);
  }
}
