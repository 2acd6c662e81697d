// The results about whole erasures: the person is gone, and everyone else is as
// they were.
module ErasureResults {
  import opened Options
  import opened Text
  import opened Erasure
  import opened ErasureProofs
  import opened ErasureDone
  import opened ErasureExact

  // ---- The person is gone --------------------------------------------------

  /** No row but a request's people is the person's, by address or by subject. */
  predicate NoRowButPeople(t: Tables, l: Look) {
    && (forall k | k in t.queue :: !Theirs(l, t.queue[k]))
    && (forall k | k in t.recipients :: !IsPersons(l, t.recipients[k]))
    && (forall k | k in t.sourcePeople :: !IsPersons(l, t.sourcePeople[k]))
    && (forall a | a in t.suppressions :: a !in l.emails && t.suppressions[a].sub != Some(l.subject))
    && (forall u | u in t.unsubscribes :: u.0 !in l.emails)
    && (forall k | k in t.inbox :: t.inbox[k].user != l.subject)
  }

  predicate NoPersonIsTheirs(t: Tables, l: Look) {
    forall k | k in t.people :: !IsPersons(l, t.people[k])
  }

  /** No column names the person as an actor. */
  predicate NoActorIsThem(t: Tables, l: Look) {
    && (forall k | k in t.tasks :: t.tasks[k].sentBy != l.subject)
    && (forall k | k in t.approvals :: t.approvals[k].submitter != l.subject)
    && (forall k | k in t.approvalEvents :: t.approvalEvents[k].actor != Some(l.subject))
    && (forall k | k in t.sources :: t.sources[k].owner != l.subject)
    && (forall k | k in t.versions :: t.versions[k].sub != Some(l.subject))
    && (forall k | k in t.sensitiveChanges :: t.sensitiveChanges[k].sub != Some(l.subject))
    && (forall k | k in t.contentViews :: t.contentViews[k].sub != Some(l.subject))
    && (forall k | k in t.removals :: t.removals[k] != l.subject)
    && (forall k | k in t.reactivations :: t.reactivations[k].actor != Some(l.subject))
    && (forall k | k in t.templateArchivers :: t.templateArchivers[k] != Some(l.subject))
    && (forall k | k in t.listArchivers :: t.listArchivers[k] != Some(l.subject))
  }

  /** No text but mail's names the person. */
  predicate NoTextNamesThem(t: Tables, l: Look) {
    && (forall k | k in t.tasks :: !Names(l, t.tasks[k].variables))
    && (forall k | k in t.approvals :: !Names(l, t.approvals[k].variables))
    && (forall k | k in t.approvalEvents :: !Names(l, OrEmpty(t.approvalEvents[k].note)))
    && (forall k | k in t.approvalEvents :: !Names(l, OrEmpty(t.approvalEvents[k].changes)))
    && (forall k | k in t.reactivations :: !Names(l, OrEmpty(t.reactivations[k].reason)))
    && (forall k | k in t.inbox :: !HitsItem(l, t.inbox[k]))
    && (forall k | k in t.sources :: !Names(l, t.sources[k].title))
    && (forall k | k in t.links && t.links[k].url.Some? :: !LinkNames(t.links[k].url.value, l.needles))
  }

  lemma MailIsGone(t: Tables, l: Look)
    requires Idle(QueuedRows, t, l) && Idle(OwnMail, t, l) && !MailInFlight(t, l)
    ensures forall k | k in t.queue :: !Theirs(l, t.queue[k])
  {
    hide Theirs, MailNames;
    forall k | k in t.queue
      ensures !Theirs(l, t.queue[k])
    {
      StatusIsOne(t.queue[k]);
      assert !IsInFlight(l, t.queue[k]);
    }
  }

  lemma RowsAreGone(t: Tables, l: Look)
    requires IsErased(t, l)
    ensures NoRowButPeople(t, l)
  {
    hide Idle, MailInFlight, NoRowButPeople;
    assert Idle(QueuedRows, t, l) && Idle(OwnMail, t, l);
    MailIsGone(t, l);
    assert Idle(Recipients, t, l) && Idle(SourcePeople, t, l);
    assert Idle(Suppressions, t, l) && Idle(Unsubscribes, t, l) && Idle(OwnInbox, t, l);
    IdleRows(t, l);
  }

  lemma IdleRows(t: Tables, l: Look)
    requires forall k | k in t.queue :: !Theirs(l, t.queue[k])
    requires Idle(Recipients, t, l) && Idle(SourcePeople, t, l)
    requires Idle(Suppressions, t, l) && Idle(Unsubscribes, t, l) && Idle(OwnInbox, t, l)
    ensures NoRowButPeople(t, l)
  {
    hide Theirs, IsPersons;
  }

  lemma ActorsAreGone(t: Tables, l: Look)
    requires IsErased(t, l)
    ensures NoActorIsThem(t, l)
  {
    hide Idle, MailInFlight, NoActorIsThem;
    assert Idle(Senders, t, l) && Idle(Submitters, t, l) && Idle(ApprovalActors, t, l) && Idle(SourceOwners, t, l);
    assert Idle(Authors, t, l) && Idle(SensitiveActors, t, l) && Idle(ViewActors, t, l) && Idle(Removers, t, l);
    assert Idle(Reactivators, t, l) && Idle(TemplateArchivers, t, l) && Idle(ListArchivers, t, l);
    IdleActors(t, l);
  }

  lemma IdleActors(t: Tables, l: Look)
    requires Idle(Senders, t, l) && Idle(Submitters, t, l) && Idle(ApprovalActors, t, l) && Idle(SourceOwners, t, l)
    requires Idle(Authors, t, l) && Idle(SensitiveActors, t, l) && Idle(ViewActors, t, l) && Idle(Removers, t, l)
    requires Idle(Reactivators, t, l) && Idle(TemplateArchivers, t, l) && Idle(ListArchivers, t, l)
    ensures NoActorIsThem(t, l)
  {
    hide Idle;
    IdleSubjects(t, l);
    IdleRecordActors(t, l);
    IdleColumnActors(t, l);
  }

  lemma IdleSubjects(t: Tables, l: Look)
    requires Idle(Senders, t, l) && Idle(Submitters, t, l) && Idle(ApprovalActors, t, l) && Idle(SourceOwners, t, l)
    ensures forall k | k in t.tasks :: t.tasks[k].sentBy != l.subject
    ensures forall k | k in t.approvals :: t.approvals[k].submitter != l.subject
    ensures forall k | k in t.approvalEvents :: t.approvalEvents[k].actor != Some(l.subject)
    ensures forall k | k in t.sources :: t.sources[k].owner != l.subject
  {
  }

  lemma IdleRecordActors(t: Tables, l: Look)
    requires Idle(Authors, t, l) && Idle(SensitiveActors, t, l) && Idle(ViewActors, t, l)
    ensures forall k | k in t.versions :: t.versions[k].sub != Some(l.subject)
    ensures forall k | k in t.sensitiveChanges :: t.sensitiveChanges[k].sub != Some(l.subject)
    ensures forall k | k in t.contentViews :: t.contentViews[k].sub != Some(l.subject)
  {
  }

  lemma IdleColumnActors(t: Tables, l: Look)
    requires Idle(Removers, t, l) && Idle(Reactivators, t, l) && Idle(TemplateArchivers, t, l)
             && Idle(ListArchivers, t, l)
    ensures forall k | k in t.removals :: t.removals[k] != l.subject
    ensures forall k | k in t.reactivations :: t.reactivations[k].actor != Some(l.subject)
    ensures forall k | k in t.templateArchivers :: t.templateArchivers[k] != Some(l.subject)
    ensures forall k | k in t.listArchivers :: t.listArchivers[k] != Some(l.subject)
  {
  }

  lemma TextsAreGone(t: Tables, l: Look)
    requires IsErased(t, l) && IsLook(l)
    ensures NoTextNamesThem(t, l)
  {
    hide Idle, MailInFlight, IsLook, NoTextNamesThem;
    assert Idle(SendVariables, t, l) && Idle(ApprovalVariables, t, l) && Idle(ApprovalNotes, t, l);
    assert Idle(ApprovalChanges, t, l) && Idle(Reasons, t, l) && Idle(NamingInbox, t, l) && Idle(SourceTitles, t, l);
    assert Idle(ClearLinks, t, l);
    IdleTexts(t, l);
  }

  lemma IdleTexts(t: Tables, l: Look)
    requires IsLook(l)
    requires Idle(SendVariables, t, l) && Idle(ApprovalVariables, t, l) && Idle(ApprovalNotes, t, l)
    requires Idle(ApprovalChanges, t, l) && Idle(Reasons, t, l) && Idle(NamingInbox, t, l) && Idle(SourceTitles, t, l)
    requires Idle(ClearLinks, t, l)
    ensures NoTextNamesThem(t, l)
  {
    hide Names, LinkNames, Alone, Theirs, Lower, IsLook, HitsItem;
    Constants(l);
  }

  /** A request to people, every one of them the person. */
  predicate GoesToThemAlone(t: Tables, l: Look, approval: Id) {
    && approval in t.approvals && t.approvals[approval].list.None?
    && HasPeople(t, approval) && IsEmptied(t, l, approval)
  }

  lemma EmptiedIs(t: Tables, l: Look)
    ensures forall k: (Id, nat) :: k in Emptied(t, l) <==> k.1 == 1 && GoesToThemAlone(t, l, k.0)
  {
    hide Lower;
    forall k: (Id, nat)
      ensures k in Emptied(t, l) <==> k.1 == 1 && GoesToThemAlone(t, l, k.0)
    {
      if k in Emptied(t, l) {
        var j :| j in t.people && k == (j.0, 1);
        assert j.0 == k.0;
      }
      if k.1 == 1 && GoesToThemAlone(t, l, k.0) {
        var j :| j in t.people && j.0 == k.0;
        assert IsEmptied(t, l, j.0);
        assert k == (j.0, 1);
      }
    }
  }

  lemma NoOneStandsIn(t: Tables, l: Look)
    requires TakesStandIn(l)
    ensures LeftEmpty(t, l) == Emptied(t, l)
  {
    hide Lower, HitsStandIn, HasNoStandIn;
    forall a: Id
      ensures HasNoStandIn(t, l, a)
    {
      NoneStandsIn(t, l, a);
    }
    forall k | k in t.people && IsEmptied(t, l, k.0)
      ensures Lower(t.people[k].email) in l.emails
    {
    }
  }

  lemma NoneStandsIn(t: Tables, l: Look, approval: Id)
    requires TakesStandIn(l)
    ensures HasNoStandIn(t, l, approval)
  {
    hide HitsStandIn;
  }

  lemma PeopleLeftAre(t: Tables, l: Look)
    ensures forall k :: k in PeopleLeft(t, l) <==>
              k in LeftEmpty(t, l) || (k in t.people && (IsPersons(l, t.people[k]) ==> StandsIn(t, l, k)))
    ensures forall k | k in PeopleLeft(t, l) ::
              PeopleLeft(t, l)[k] ==
              if k in LeftEmpty(t, l) || IsPersons(l, t.people[k]) then STAND_IN else t.people[k]
  {
    hide LeftEmpty, HitsStandIn, Lower;
  }

  /** Who of the person is left in requests: only a stand-in that is theirs
      again, in a request that went to them alone. */
  lemma PersonsLeft(t: Tables, l: Look)
    requires IsLook(l)
    ensures var left := PeopleLeft(t, l);
            && (forall k ::
                  k in left && IsPersons(l, left[k])
                  <==> TakesStandIn(l) && k.1 == 1 && GoesToThemAlone(t, l, k.0))
            && (forall k | k in left && IsPersons(l, left[k]) :: left[k] == STAND_IN)
  {
    hide IsLook, PeopleLeft, LeftEmpty, Emptied, GoesToThemAlone, HitsStandIn, Lower;
    Constants(l);
    PeopleLeftAre(t, l);
    assert IsPersons(l, STAND_IN) <==> TakesStandIn(l);
    if TakesStandIn(l) {
      NoOneStandsIn(t, l);
      EmptiedIs(t, l);
    }
  }

  /** When a receipt is written the person is gone: no row is theirs, no column
      names them as an actor, and no text searched names them, for every
      database it started from. Only where the stand-in's own address was
      among theirs does a request that went to them alone keep a stand-in with
      that address. */
  lemma ReceiptMeansGone(db: Db, c: Command, at: int)
    requires IsCommand(c) && c.request !in db.receipts
    requires Erase(db, c, at).1.Completed?
    ensures var t, u, l := db.tables, Erase(db, c, at).0.tables, LookOf(db.tables, c);
            && NoRowButPeople(u, l) && NoActorIsThem(u, l) && NoTextNamesThem(u, l)
            && (NoPersonIsTheirs(u, l) <==> !(DELETED_EMAIL in Emails(c) && exists a :: GoesToThemAlone(t, l, a)))
            && (forall k :: k in u.people && IsPersons(l, u.people[k]) <==>
                              DELETED_EMAIL in Emails(c) && k.1 == 1 && GoesToThemAlone(t, l, k.0))
            && (forall k | k in u.people && IsPersons(l, u.people[k]) :: u.people[k] == STAND_IN)
  {
    hide Erase, IsErased, Lessens, IsLook, IsCommand, NoRowButPeople, NoActorIsThem, NoTextNamesThem,
      GoesToThemAlone, IsPersons, PeopleLeft, Needles, Emails;
    CommandLooks(db.tables, c);
    CompletedErases(db, c, at);
    var t, u, l := db.tables, Erase(db, c, at).0.tables, LookOf(db.tables, c);
    RowsAreGone(u, l);
    ActorsAreGone(u, l);
    TextsAreGone(u, l);
    PersonsLeft(t, l);
    PeopleAreLeft(db, c, at);
    if a :| TakesStandIn(l) && GoesToThemAlone(t, l, a) {
      var k: (Id, nat) := (a, 1);
      assert k in u.people && IsPersons(l, u.people[k]);
    }
  }

  lemma PeopleAreLeft(db: Db, c: Command, at: int)
    requires IsCommand(c) && c.request !in db.receipts && Erase(db, c, at).1.Completed?
    ensures Erase(db, c, at).0.tables.people == PeopleLeft(db.tables, LookOf(db.tables, c))
  {
    hide Erase, LookOf, IsCommand, PeopleLeft;
    ErasureIsExact(db, c, at);
  }

  /** Mail whose status was never set: neither waited for nor cleared. */
  predicate IsUnset(l: Look, q: QueueRow) {
    q.status == None && !Theirs(l, q) && MailNames(l, q)
  }

  /** And no mail names them either, exactly when no mail to anyone else that
      names them had no status to begin with. */
  lemma MailTextsGoneExactly(db: Db, c: Command, at: int)
    requires IsCommand(c) && c.request !in db.receipts
    requires Erase(db, c, at).1.Completed?
    ensures var t, l := Erase(db, c, at).0.tables, LookOf(db.tables, c);
            (forall k | k in t.queue :: !MailNames(l, t.queue[k]))
            <==> (forall k | k in db.tables.queue :: !IsUnset(l, db.tables.queue[k]))
  {
    hide Erase, LookOf, Lessens, IsLook, MailNames, Theirs;
    CommandLooks(db.tables, c);
    CompletedErases(db, c, at);
    var s, t, l := db.tables, Erase(db, c, at).0.tables, LookOf(db.tables, c);
    QueueLess(s, t, l);
    RowsAreGone(t, l);
    assert Idle(NamingBodies, t, l);
    forall k | k in t.queue && MailNames(l, t.queue[k])
      ensures IsUnset(l, s.queue[k])
    {
      StatusIsOne(t.queue[k]);
      assert !IsInFlight(l, t.queue[k]) && !HitsBody(l, t.queue[k]) && LessMail(l, s.queue[k], t.queue[k]);
    }
    forall k | k in s.queue && IsUnset(l, s.queue[k])
      ensures k in t.queue && MailNames(l, t.queue[k])
    {
      assert t.queue[k] == s.queue[k];
    }
  }

  // ---- Everyone else -------------------------------------------------------

  /** Whatever a call does — completed or still in progress — every row that
      does not concern the person is as it was, and mail still with the mailer
      keeps its text and its recipient. */
  lemma EveryoneElseIsKept(db: Db, c: Command, at: int)
    requires IsCommand(c)
    ensures Lessens(db.tables, Erase(db, c, at).0.tables, LookOf(db.tables, c))
    ensures forall k | k in db.tables.queue && db.tables.queue[k].status == Some(Processing) ::
              var q := db.tables.queue[k];
              var u := Erase(db, c, at).0.tables.queue;
              k in u && u[k] == q.(token := u[k].token, tokenClosed := u[k].tokenClosed)
  {
    hide Lessens, LookOf, MailInFlight, IsLook, DoAll, CountAll;
    CommandLooks(db.tables, c);
    var t, l := db.tables, LookOf(db.tables, c);
    var first := DoAll(FIRST_STEPS, t, l);
    LessensNothing(t, l);
    DoAllLessens(FIRST_STEPS, t, l);
    DoAllLessens(LAST_STEPS, first, l);
    LessensInTurn(t, first, DoAll(LAST_STEPS, first, l), l);
    QueueLess(t, Erase(db, c, at).0.tables, l);
    MailerKeepsItsMail(t, Erase(db, c, at).0.tables, l);
  }

  lemma MailerKeepsItsMail(t: Tables, u: Tables, l: Look)
    requires LessQueue(t, u, l)
    ensures forall k | k in t.queue && t.queue[k].status == Some(Processing) ::
              k in u.queue && u.queue[k]
                  == t.queue[k].(token := u.queue[k].token, tokenClosed := u.queue[k].tokenClosed)
  {
    hide Theirs, MailNames;
    forall k | k in t.queue && t.queue[k].status == Some(Processing)
      ensures k in u.queue && u.queue[k]
              == t.queue[k].(token := u.queue[k].token, tokenClosed := u.queue[k].tokenClosed)
    {
      assert k in u.queue && LessMail(l, t.queue[k], u.queue[k]);
    }
  }

  /** The mail a call locks before it changes anything. */
  predicate IsLocked(l: Look, q: QueueRow) {
    Theirs(l, q) || (IsFinal(q) && MailNames(l, q))
  }

  /** Every mail a call changes or deletes is one it locked at its start. */
  lemma ChangedMailIsLocked(db: Db, c: Command, at: int)
    requires IsCommand(c)
    ensures var u := Erase(db, c, at).0.tables.queue;
            forall k | k in db.tables.queue && (k !in u || u[k] != db.tables.queue[k]) ::
              IsLocked(LookOf(db.tables, c), db.tables.queue[k])
  {
    hide Erase, LookOf, Lessens, MailNames, Theirs;
    var t, l := db.tables, LookOf(db.tables, c);
    EveryoneElseIsKept(db, c, at);
    QueueLess(t, Erase(db, c, at).0.tables, l);
    var u := Erase(db, c, at).0.tables.queue;
    forall k | k in t.queue && (k !in u || u[k] != t.queue[k])
      ensures IsLocked(l, t.queue[k])
    {
      if k in u {
        assert LessMail(l, t.queue[k], u[k]);
      }
    }
  }
}
