// What a completed erasure leaves of each row, told from the command and the
// rows before it, and when a call completes at all.
module ErasureRows {
  import opened Options
  import opened Text
  import opened Erasure
  import opened ErasureProofs
  import opened ErasureDone
  import opened ErasureExact
  import opened ErasureResults
  import opened ErasureNames
  import opened ErasureCompletes
  import opened ErasurePlainly

  // ---- The person, and what is looked for ----------------------------------

  /** What is looked for is the person, plainly told. */
  ghost predicate Agrees(t: Tables, c: Command, l: Look) {
    && l.subject == c.subject
    && (forall address :: Lower(address) in l.emails <==> IsTheirAddress(c, address))
    && (forall q :: Theirs(l, q) <==> WentTo(c, q))
    && (forall text :: Names(l, text) <==> Mentions(t, c, text))
    && !Mentions(t, c, "")
  }

  lemma LookAgrees(t: Tables, c: Command)
    requires IsCommand(c)
    ensures Agrees(t, c, LookOf(t, c))
  {
    hide Names, Mentions, IsCommand, Needles, Emails, Theirs, WentTo, IsTheirAddress, Lower;
    TheirsPlainly(c, t);
    AllNamesPlainly(t, c);
  }

  predicate IsOut(q: QueueRow) {
    q.status == Some(Sent) || q.status == Some(Failed)
  }

  predicate IsStill(q: QueueRow) {
    q.status == None || q.status == Some(Pending)
  }

  ghost predicate MailMentions(t: Tables, c: Command, q: QueueRow) {
    || Mentions(t, c, q.subject)
    || Mentions(t, c, q.body)
    || (q.html.Some? && Mentions(t, c, q.html.value))
  }

  lemma MailAgrees(t: Tables, c: Command, l: Look, q: QueueRow)
    requires Agrees(t, c, l)
    ensures MailNames(l, q) <==> MailMentions(t, c, q)
  {
    hide Names, Mentions;
  }

  lemma LeftExactly(db: Db, c: Command, at: int) returns (l: Look)
    requires IsCommand(c) && c.request !in db.receipts && Erase(db, c, at).1.Completed?
    ensures l == LookOf(db.tables, c) && IsLook(l) && Agrees(db.tables, c, l)
    ensures Erase(db, c, at).0.tables == Erased(db.tables, l)
  {
    hide Erase, Agrees, IsLook, LookOf, Erased, IsCommand;
    l := LookOf(db.tables, c);
    CommandLooks(db.tables, c);
    LookAgrees(db.tables, c);
    ErasureIsExact(db, c, at);
  }

  // ---- Mail ----------------------------------------------------------------

  /** Mail to the person that was not sent yet is gone; mail to them that went
      out or failed keeps its send, its status, its News record and whether it
      was tracked, and nothing else; mail to anyone else that went out or failed
      loses its texts if one mentions them; and every other mail is as it was. */
  ghost predicate MailIsLeft(t: Tables, u: Tables, c: Command) {
    && (forall k :: k in u.queue <==> k in t.queue && !(WentTo(c, t.queue[k]) && IsStill(t.queue[k])))
    && (forall k | k in u.queue :: u.queue[k] == MailLeftOf(t, c, t.queue[k]))
  }

  ghost function MailLeftOf(t: Tables, c: Command, q: QueueRow): (r: QueueRow) {
    if WentTo(c, q) then
      QueueRow(q.task, DELETED_NAME, "", None, "", "", None, q.status, None, None, q.tokenClosed || q.token.Some?, None,
               q.sourceRef)
    else if IsOut(q) && MailMentions(t, c, q) then
      QueueRow(q.task, q.name, q.email, q.sub, "", "", None, q.status, q.error, q.token, q.tokenClosed,
               q.unsubscribeUrl, q.sourceRef)
    else q
  }

  lemma MailPlainly(t: Tables, u: Tables, c: Command, l: Look)
    requires Agrees(t, c, l) && u.queue == QueueLeft(t, l)
    ensures MailIsLeft(t, u, c)
  {
    hide Names, Mentions, MailMentions, MailNames, WentTo, Theirs;
    forall k | k in t.queue
      ensures MailNames(l, t.queue[k]) <==> MailMentions(t, c, t.queue[k])
    {
      MailAgrees(t, c, l, t.queue[k]);
    }
  }

  // ---- Rows by address -----------------------------------------------------

  /** The lower-cased form of one of the command's addresses. */
  predicate IsTheirKey(c: Command, key: string) {
    exists x | x in c.emails :: key == Lower(x)
  }

  lemma KeysPlainly(t: Tables, c: Command, key: string)
    requires IsCommand(c)
    ensures key in LookOf(t, c).emails <==> IsTheirKey(c, key)
  {
    hide Btrim, Lower, Needles;
    forall x | x in c.emails
      ensures Btrim(x) == x && x != ""
    {
      AddressIsWhole(x);
    }
  }

  /** Recipients, people of Forms sources, memberships and unsubscribes go
      exactly when they are by one of their addresses. */
  predicate AddressesAreLeft(t: Tables, u: Tables, c: Command) {
    && u.recipients == (map k | k in t.recipients && !IsTheirAddress(c, t.recipients[k].email) :: t.recipients[k])
    && u.sourcePeople
       == (map k | k in t.sourcePeople && !IsTheirAddress(c, t.sourcePeople[k].email) :: t.sourcePeople[k])
    && u.memberships == (map k | k in t.memberships && !IsTheirMembership(t, c, t.memberships[k]) :: t.memberships[k])
    && u.unsubscribes == (set x | x in t.unsubscribes && !IsTheirKey(c, x.0))
  }

  predicate IsTheirMembership(t: Tables, c: Command, m: (Id, Id)) {
    m.1 in t.recipients && IsTheirAddress(c, t.recipients[m.1].email)
  }

  lemma RecipientsPlainly(t: Tables, c: Command, l: Look)
    requires forall address :: Lower(address) in l.emails <==> IsTheirAddress(c, address)
    ensures RecipientsLeft(t, l)
            == map k | k in t.recipients && !IsTheirAddress(c, t.recipients[k].email) :: t.recipients[k]
    ensures MembershipsLeft(t, l)
            == map k | k in t.memberships && !IsTheirMembership(t, c, t.memberships[k]) :: t.memberships[k]
  {
    hide IsTheirAddress, Lower;
  }

  lemma SourcePeoplePlainly(t: Tables, c: Command, l: Look)
    requires forall address :: Lower(address) in l.emails <==> IsTheirAddress(c, address)
    ensures SourcePeopleLeft(t, l)
            == map k | k in t.sourcePeople && !IsTheirAddress(c, t.sourcePeople[k].email) :: t.sourcePeople[k]
  {
    hide IsTheirAddress, Lower;
  }

  lemma AddressesPlainly(t: Tables, u: Tables, c: Command, l: Look)
    requires Agrees(t, c, l) && forall a :: a in l.emails <==> IsTheirKey(c, a)
    requires u.recipients == RecipientsLeft(t, l) && u.sourcePeople == SourcePeopleLeft(t, l)
    requires u.memberships == MembershipsLeft(t, l) && u.unsubscribes == UnsubscribesLeft(t, l)
    ensures AddressesAreLeft(t, u, c)
  {
    hide Names, Mentions, Theirs, WentTo, IsTheirAddress, IsTheirKey, Lower, RecipientsLeft, SourcePeopleLeft,
      MembershipsLeft;
    RecipientsPlainly(t, c, l);
    SourcePeoplePlainly(t, c, l);
  }

  predicate PointsAtTheirs(t: Tables, c: Command, s: Suppression, still: bool) {
    && s.lastQueue.Some? && s.lastQueue.value in t.queue
    && WentTo(c, t.queue[s.lastQueue.value]) && IsStill(t.queue[s.lastQueue.value]) == still
  }

  /** A suppression goes exactly when it is of one of their addresses, has their
      subject, or last came from mail to them that is left; and forgets mail to
      them that goes. */
  predicate SuppressionsAreLeft(t: Tables, u: Tables, c: Command) {
    u.suppressions
    == map a | a in t.suppressions && !(IsTheirKey(c, a) || t.suppressions[a].sub == Some(c.subject)
                                        || PointsAtTheirs(t, c, t.suppressions[a], false)) ::
         if PointsAtTheirs(t, c, t.suppressions[a], true)
         then Suppression(t.suppressions[a].sub, None) else t.suppressions[a]
  }

  lemma SuppressionsPlainly(t: Tables, u: Tables, c: Command, l: Look)
    requires Agrees(t, c, l) && forall a :: a in l.emails <==> IsTheirKey(c, a)
    requires u.suppressions == SuppressionsLeft(t, l)
    ensures SuppressionsAreLeft(t, u, c)
  {
    hide Names, Mentions, Theirs, WentTo, IsTheirAddress, IsTheirKey, Lower;
    forall a | a in t.suppressions
      ensures PointsAt(t, l, t.suppressions[a], true) == PointsAtTheirs(t, c, t.suppressions[a], true)
      ensures PointsAt(t, l, t.suppressions[a], false) == PointsAtTheirs(t, c, t.suppressions[a], false)
    {
    }
  }

  // ---- Rows by subject -----------------------------------------------------

  function Replacing(c: Command, sub: string): (r: string) {
    if sub == c.subject then DELETED_SUBJECT else sub
  }

  function ReplacingIn(c: Command, sub: Option<string>): (r: Option<string>) {
    if sub == Some(c.subject) then Some(DELETED_SUBJECT) else sub
  }

  function ReplacingActor(c: Command, a: Actor): (r: Actor) {
    if a.sub == Some(c.subject) then Actor(Some(DELETED_SUBJECT), Some(DELETED_NAME)) else a
  }

  /** In records of who did what a deleted user stands in their place. */
  predicate ActorsAreReplaced(t: Tables, u: Tables, c: Command) {
    && u.versions == (map k | k in t.versions :: ReplacingActor(c, t.versions[k]))
    && u.sensitiveChanges == (map k | k in t.sensitiveChanges :: ReplacingActor(c, t.sensitiveChanges[k]))
    && u.contentViews == (map k | k in t.contentViews :: ReplacingActor(c, t.contentViews[k]))
    && u.removals == (map k | k in t.removals :: Replacing(c, t.removals[k]))
    && u.templateArchivers == (map k | k in t.templateArchivers :: ReplacingIn(c, t.templateArchivers[k]))
    && u.listArchivers == (map k | k in t.listArchivers :: ReplacingIn(c, t.listArchivers[k]))
  }

  lemma RecordsPlainly(records: map<Id, Actor>, c: Command, l: Look)
    requires l.subject == c.subject
    ensures ActorsLeft(records, l) == map k | k in records :: ReplacingActor(c, records[k])
  {
  }

  lemma ArchiversPlainly(archivers: map<Id, Option<string>>, c: Command, l: Look)
    requires l.subject == c.subject
    ensures ArchiversLeft(archivers, l) == map k | k in archivers :: ReplacingIn(c, archivers[k])
  {
  }

  lemma ActorsPlainly(t: Tables, u: Tables, c: Command, l: Look)
    requires l.subject == c.subject
    requires u.versions == ActorsLeft(t.versions, l) && u.sensitiveChanges == ActorsLeft(t.sensitiveChanges, l)
    requires u.contentViews == ActorsLeft(t.contentViews, l) && u.removals == RemovalsLeft(t, l)
    requires u.templateArchivers == ArchiversLeft(t.templateArchivers, l)
    requires u.listArchivers == ArchiversLeft(t.listArchivers, l)
    ensures ActorsAreReplaced(t, u, c)
  {
    hide ActorsLeft, ArchiversLeft, ReplacingActor, ReplacingIn;
    RecordsPlainly(t.versions, c, l);
    RecordsPlainly(t.sensitiveChanges, c, l);
    RecordsPlainly(t.contentViews, c, l);
    ArchiversPlainly(t.templateArchivers, c, l);
    ArchiversPlainly(t.listArchivers, c, l);
  }

  // ---- Texts ---------------------------------------------------------------

  /** A send that went to someone, and to no one but them. */
  predicate WentToThemAlone(t: Tables, c: Command, task: Id) {
    && (exists k | k in t.queue :: t.queue[k].task == task)
    && (forall k | k in t.queue && t.queue[k].task == task :: WentTo(c, t.queue[k]))
  }

  lemma AloneAgrees(t: Tables, c: Command, l: Look, task: Id)
    requires Agrees(t, c, l)
    ensures Alone(t, l, task) <==> WentToThemAlone(t, c, task)
  {
    hide Theirs, WentTo, Names, Mentions;
  }

  /** A send's and a request's variables are emptied exactly when they mention
      them, and a send's too when it went to them alone; who sent and who
      submitted is replaced. */
  ghost predicate VariablesAreLeft(t: Tables, u: Tables, c: Command) {
    && u.tasks.Keys == t.tasks.Keys
    && (forall k | k in t.tasks :: u.tasks[k] == TaskLeftOf(t, c, k, t.tasks[k]))
    && u.approvals.Keys == t.approvals.Keys
    && (forall k | k in t.approvals :: u.approvals[k] == ApprovalLeftOf(t, c, t.approvals[k]))
  }

  ghost function TaskLeftOf(t: Tables, c: Command, id: Id, task: Task): (r: Task) {
    Task(Replacing(c, task.sentBy),
         if Mentions(t, c, task.variables) || WentToThemAlone(t, c, id) then "{}" else task.variables)
  }

  ghost function ApprovalLeftOf(t: Tables, c: Command, a: Approval): (r: Approval) {
    var variables := if Mentions(t, c, a.variables) then "{}" else a.variables;
    if a.submitter == c.subject
    then Approval(DELETED_SUBJECT, Some(DELETED_NAME), None, false, variables, a.list, a.source)
    else Approval(a.submitter, a.submitterName, a.submitterEmail, a.emailUnverified, variables, a.list, a.source)
  }

  lemma TaskPlainly(t: Tables, c: Command, l: Look, k: Id)
    requires Agrees(t, c, l) && IsLook(l) && k in t.tasks
    ensures TasksLeft(t, l)[k] == TaskLeftOf(t, c, k, t.tasks[k])
  {
    hide Names, Mentions, Theirs, WentTo, WentToThemAlone, Alone, IsLook, Lower;
    AloneAgrees(t, c, l, k);
    Constants(l);
  }

  lemma VariablesPlainly(t: Tables, u: Tables, c: Command, l: Look)
    requires Agrees(t, c, l) && IsLook(l) && u.tasks == TasksLeft(t, l) && u.approvals == ApprovalsLeft(t, l)
    ensures VariablesAreLeft(t, u, c)
  {
    hide Names, Mentions, Theirs, WentTo, IsLook, TaskLeftOf;
    forall k | k in t.tasks
      ensures TasksLeft(t, l)[k] == TaskLeftOf(t, c, k, t.tasks[k])
    {
      TaskPlainly(t, c, l, k);
    }
  }

  /** A note but the one put in place of another. */
  predicate IsNote(e: ApprovalEvent) {
    e.note.Some? && !(e.rejected && e.note.value == ERASED_NOTE)
  }

  ghost function EventLeftOf(t: Tables, c: Command, e: ApprovalEvent): (r: ApprovalEvent) {
    ApprovalEvent(
      e.rejected,
      ReplacingIn(c, e.actor),
      if e.actor == Some(c.subject) then Some(DELETED_NAME) else e.actorName,
      if IsNote(e) && (e.actor == Some(c.subject) || Mentions(t, c, e.note.value))
      then (if e.rejected then Some(ERASED_NOTE) else None)
      else e.note,
      if e.changes.Some? && Mentions(t, c, e.changes.value) then None else e.changes)
  }

  ghost function ReactivationLeftOf(t: Tables, c: Command, r: Reactivation): (left: Reactivation) {
    Reactivation(ReplacingIn(c, r.actor),
                 if r.reason.Some? && Mentions(t, c, r.reason.value) then Some(ERASED_NOTE) else r.reason)
  }

  /** Notes they wrote or that mention them, and changes and reasons that
      mention them, are cleared; the actor and their name are replaced. */
  ghost predicate NotesAreLeft(t: Tables, u: Tables, c: Command) {
    && u.approvalEvents.Keys == t.approvalEvents.Keys
    && (forall k | k in t.approvalEvents :: u.approvalEvents[k] == EventLeftOf(t, c, t.approvalEvents[k]))
    && u.reactivations.Keys == t.reactivations.Keys
    && (forall k | k in t.reactivations :: u.reactivations[k] == ReactivationLeftOf(t, c, t.reactivations[k]))
  }

  lemma NotesPlainly(t: Tables, u: Tables, c: Command, l: Look)
    requires Agrees(t, c, l) && IsLook(l)
    requires u.approvalEvents == ApprovalEventsLeft(t, l) && u.reactivations == ReactivationsLeft(t, l)
    ensures NotesAreLeft(t, u, c)
  {
    hide Names, Mentions, Theirs, WentTo, Alone, IsLook, Lower;
    Constants(l);
  }

  ghost predicate ItemMentions(t: Tables, c: Command, i: InboxItem) {
    Mentions(t, c, i.title) || Mentions(t, c, i.summary) || (i.link.Some? && Mentions(t, c, i.link.value))
  }

  ghost function SourceLeftOf(t: Tables, c: Command, id: Id, s: FormSource): (r: FormSource) {
    FormSource(
      Replacing(c, s.owner),
      if Mentions(t, c, s.title) then ERASED_NOTE else s.title,
      s.invalidated || s.owner == c.subject || Mentions(t, c, s.title)
      || (exists p | p in t.sourcePeople :: p.0 == id && IsTheirAddress(c, t.sourcePeople[p].email)),
      s.recipientCount)
  }

  /** An inbox item goes exactly when it is theirs or mentions them. A Forms
      source that is theirs, mentions them or has them among its people can be
      used no more, and its title goes when it mentions them. */
  ghost predicate TitlesAreLeft(t: Tables, u: Tables, c: Command) {
    && (forall k :: k in u.inbox <==>
                      k in t.inbox && t.inbox[k].user != c.subject && !ItemMentions(t, c, t.inbox[k]))
    && (forall k | k in u.inbox :: u.inbox[k] == t.inbox[k])
    && u.sources.Keys == t.sources.Keys
    && (forall k | k in t.sources :: u.sources[k] == SourceLeftOf(t, c, k, t.sources[k]))
  }

  lemma TitlesPlainly(t: Tables, u: Tables, c: Command, l: Look)
    requires Agrees(t, c, l) && u.inbox == InboxLeft(t, l) && u.sources == SourcesLeft(t, l)
    ensures TitlesAreLeft(t, u, c)
  {
    hide Names, Mentions, Theirs, WentTo, Alone, Lower, IsTheirAddress;
  }

  /** A link mentions them as it stands or unescaped, with '+' for a blank or for
      itself. */
  ghost predicate LinkMentions(t: Tables, c: Command, url: string) {
    || Mentions(t, c, url)
    || (Unescape(url, true).Some? && Mentions(t, c, Unescape(url, true).value))
    || (Unescape(url, false).Some? && Mentions(t, c, Unescape(url, false).value))
  }

  lemma LinkAgrees(t: Tables, c: Command, url: string)
    requires IsCommand(c)
    ensures LinkNames(url, LookOf(t, c).needles) <==> LinkMentions(t, c, url)
  {
    hide Unescape, Contains, Lower, Mentions, IsCommand, LookOf;
    var l := LookOf(t, c);
    CommandLooks(t, c);
    AllNamesPlainly(t, c);
    forall needle | needle in l.needles
      ensures Lower(needle) == needle && needle != ""
    {
      NeedlesAreLower(t, c, needle);
    }
  }

  /** A tracked link loses its address exactly when only mail to them had it or
      it mentions them; a tracking event goes exactly when its mail was theirs. */
  ghost predicate LinksAreLeft(t: Tables, u: Tables, c: Command) {
    && u.links.Keys == t.links.Keys
    && (forall k | k in t.links :: u.links[k] == LinkLeftOf(t, c, t.links[k]))
    && u.events == (map k | k in t.events && !(t.events[k] in t.queue && WentTo(c, t.queue[t.events[k]])) ::
                      t.events[k])
  }

  ghost function LinkLeftOf(t: Tables, c: Command, i: Link): (r: Link) {
    if i.url.Some? && (WentToThemAlone(t, c, i.task) || LinkMentions(t, c, i.url.value))
    then Link(i.task, None, true) else i
  }

  lemma LinksPlainly(t: Tables, u: Tables, c: Command, l: Look)
    requires Agrees(t, c, l) && forall url :: LinkNames(url, l.needles) <==> LinkMentions(t, c, url)
    requires u.links == LinksLeft(t, l) && u.events == EventsLeft(t, l)
    ensures LinksAreLeft(t, u, c)
  {
    hide Names, Mentions, Theirs, WentTo, WentToThemAlone, Alone, LinkMentions, LinkNames, Lower;
    forall task
      ensures Alone(t, l, task) <==> WentToThemAlone(t, c, task)
    {
      AloneAgrees(t, c, l, task);
    }
  }

  // ---- The people of requests ----------------------------------------------

  /** A person of a request who is theirs and whose send was queued. */
  predicate IsTheirSend(t: Tables, c: Command, k: (Id, nat)) {
    k in t.people && k in t.sends && IsTheirAddress(c, t.people[k].email)
  }

  /** The place a stand-in takes: of their sends in a request that has no
      stand-in, the first; and none where the stand-in's address is theirs. */
  predicate IsStoodInFor(t: Tables, c: Command, k: (Id, nat)) {
    && !IsTheirAddress(c, DELETED_EMAIL)
    && IsTheirSend(t, c, k)
    && (forall o | o in t.people && o.0 == k.0 :: Lower(t.people[o].email) != DELETED_EMAIL)
    && (forall o | o in t.people && o.0 == k.0 && o.1 < k.1 :: !IsTheirSend(t, c, o))
  }

  /** A request to people, all of them the person, none of whom is stood in for. */
  predicate IsLeftWithNoOne(t: Tables, c: Command, approval: Id) {
    && approval in t.approvals && t.approvals[approval].list.None?
    && (exists k | k in t.people :: k.0 == approval)
    && (forall k | k in t.people && k.0 == approval ::
          IsTheirAddress(c, t.people[k].email) && !IsStoodInFor(t, c, k))
  }

  /** The person is taken out of every request; the stand-in takes the place of
      their first queued send, or the first place of a request that would have
      no one. */
  ghost predicate PeopleAreLeftOf(t: Tables, u: Tables, c: Command) {
    && (forall k :: k in u.people <==>
                      || (k in t.people && !IsTheirAddress(c, t.people[k].email))
                      || IsStoodInFor(t, c, k)
                      || (k.1 == 1 && IsLeftWithNoOne(t, c, k.0)))
    && (forall k | k in u.people ::
          u.people[k] == if k in t.people && !IsTheirAddress(c, t.people[k].email)
                         then t.people[k] else Person(DELETED_EMAIL, DELETED_NAME))
  }

  /** Their sends go but where the stand-in takes their place. */
  ghost predicate SendsAreLeftOf(t: Tables, u: Tables, c: Command) {
    && (forall k :: k in u.sends <==> k in t.sends && (IsTheirSend(t, c, k) ==> IsStoodInFor(t, c, k)))
    && (forall k | k in u.sends :: u.sends[k] == t.sends[k])
  }

  lemma StandInPlainly(t: Tables, c: Command, l: Look, k: (Id, nat))
    requires forall address :: Lower(address) in l.emails <==> IsTheirAddress(c, address)
    ensures StandsIn(t, l, k) <==> IsStoodInFor(t, c, k)
  {
    hide IsTheirAddress, Lower;
    EmailIsLower();
    assert TakesStandIn(l) <==> IsTheirAddress(c, DELETED_EMAIL);
    if CanStandIn(t, l, k) {
      forall o | o in t.people && o.0 == k.0
        ensures CanStandIn(t, l, o) <==> IsTheirSend(t, c, o)
      {
      }
    }
  }

  lemma EmailIsLower()
    ensures Lower(DELETED_EMAIL) == DELETED_EMAIL
  {
  }

  lemma NoOnePlainly(t: Tables, c: Command, l: Look, k: (Id, nat))
    requires forall address :: Lower(address) in l.emails <==> IsTheirAddress(c, address)
    requires forall o :: StandsIn(t, l, o) <==> IsStoodInFor(t, c, o)
    ensures k in LeftEmpty(t, l) <==> k.1 == 1 && IsLeftWithNoOne(t, c, k.0)
  {
    hide IsTheirAddress, Lower, StandsIn, IsStoodInFor;
    if k in LeftEmpty(t, l) {
      var j :| j in t.people && k == (j.0, 1);
      assert j.0 == k.0;
    }
    if k.1 == 1 && IsLeftWithNoOne(t, c, k.0) {
      var j :| j in t.people && j.0 == k.0;
      assert IsEmptied(t, l, j.0) && HasNoStandIn(t, l, j.0);
      assert k == (j.0, 1);
    }
  }

  lemma PeoplePlainly(t: Tables, u: Tables, c: Command, l: Look)
    requires forall address :: Lower(address) in l.emails <==> IsTheirAddress(c, address)
    requires forall k :: StandsIn(t, l, k) <==> IsStoodInFor(t, c, k)
    requires u.people == PeopleLeft(t, l)
    ensures PeopleAreLeftOf(t, u, c)
  {
    hide IsTheirAddress, Lower, StandsIn, LeftEmpty, IsStoodInFor, IsLeftWithNoOne, PeopleLeft;
    forall k
      ensures k in LeftEmpty(t, l) <==> k.1 == 1 && IsLeftWithNoOne(t, c, k.0)
      ensures k in t.people && IsLeftWithNoOne(t, c, k.0) ==> IsTheirAddress(c, t.people[k].email)
      ensures IsStoodInFor(t, c, k) ==> k in t.people && IsTheirAddress(c, t.people[k].email)
    {
      NoOnePlainly(t, c, l, k);
      NoOneIsTheirs(t, c, k);
    }
    PeopleLeftAre(t, l);
  }

  lemma SendsPlainly(t: Tables, u: Tables, c: Command, l: Look)
    requires forall address :: Lower(address) in l.emails <==> IsTheirAddress(c, address)
    requires forall k :: StandsIn(t, l, k) <==> IsStoodInFor(t, c, k)
    requires u.sends == SendsLeft(t, l)
    ensures SendsAreLeftOf(t, u, c)
  {
    hide IsTheirAddress, Lower, StandsIn, IsStoodInFor;
  }

  lemma RequestsPlainly(t: Tables, u: Tables, c: Command, l: Look)
    requires Agrees(t, c, l) && u.people == PeopleLeft(t, l) && u.sends == SendsLeft(t, l)
    ensures PeopleAreLeftOf(t, u, c) && SendsAreLeftOf(t, u, c)
  {
    hide IsTheirAddress, StandsIn, IsStoodInFor, PeopleLeft, SendsLeft, Names, Mentions, Theirs, WentTo, Lower,
      PeopleAreLeftOf, SendsAreLeftOf;
    forall k
      ensures StandsIn(t, l, k) <==> IsStoodInFor(t, c, k)
    {
      StandInPlainly(t, c, l, k);
    }
    PeoplePlainly(t, u, c, l);
    SendsPlainly(t, u, c, l);
  }

  lemma NoOneIsTheirs(t: Tables, c: Command, k: (Id, nat))
    ensures k in t.people && IsLeftWithNoOne(t, c, k.0) ==> IsTheirAddress(c, t.people[k].email)
    ensures IsStoodInFor(t, c, k) ==> k in t.people && IsTheirAddress(c, t.people[k].email)
  {
    hide IsTheirAddress;
  }

  // ---- Every table ---------------------------------------------------------

  /** What an erasure leaves of every table, plainly told. */
  ghost predicate IsWhatIsLeft(t: Tables, u: Tables, c: Command) {
    && MailIsLeft(t, u, c)
    && AddressesAreLeft(t, u, c)
    && SuppressionsAreLeft(t, u, c)
    && ActorsAreReplaced(t, u, c)
    && VariablesAreLeft(t, u, c)
    && NotesAreLeft(t, u, c)
    && TitlesAreLeft(t, u, c)
    && LinksAreLeft(t, u, c)
    && PeopleAreLeftOf(t, u, c)
    && SendsAreLeftOf(t, u, c)
  }

  lemma LeftPlainly(t: Tables, c: Command)
    requires IsCommand(c)
    ensures IsWhatIsLeft(t, Erased(t, LookOf(t, c)), c)
  {
    hide IsCommand, Agrees, IsLook, LookOf, MailIsLeft, AddressesAreLeft, SuppressionsAreLeft, ActorsAreReplaced,
      VariablesAreLeft, NotesAreLeft, TitlesAreLeft, LinksAreLeft, PeopleAreLeftOf, SendsAreLeftOf, QueueLeft,
      RecipientsLeft, SourcePeopleLeft, MembershipsLeft, UnsubscribesLeft, SuppressionsLeft, ActorsLeft, RemovalsLeft,
      ArchiversLeft,
      TasksLeft, ApprovalsLeft, ApprovalEventsLeft, ReactivationsLeft, InboxLeft, SourcesLeft, LinksLeft, EventsLeft,
      PeopleLeft, SendsLeft, IsTheirKey, LinkNames, LinkMentions;
    var l := LookOf(t, c);
    var u := Erased(t, l);
    CommandLooks(t, c);
    LookAgrees(t, c);
    MailPlainly(t, u, c, l);
    forall a
      ensures a in l.emails <==> IsTheirKey(c, a)
    {
      KeysPlainly(t, c, a);
    }
    AddressesPlainly(t, u, c, l);
    SuppressionsPlainly(t, u, c, l);
    SubjectAgrees(t, c, l);
    ActorsPlainly(t, u, c, l);
    VariablesPlainly(t, u, c, l);
    NotesPlainly(t, u, c, l);
    TitlesPlainly(t, u, c, l);
    forall url
      ensures LinkNames(url, l.needles) <==> LinkMentions(t, c, url)
    {
      LinkAgrees(t, c, url);
    }
    LinksPlainly(t, u, c, l);
    RequestsPlainly(t, u, c, l);
  }

  lemma SubjectAgrees(t: Tables, c: Command, l: Look)
    requires Agrees(t, c, l)
    ensures l.subject == c.subject
  {
    hide Names, Mentions, Theirs, WentTo;
  }

  /** A completed erasure leaves exactly that of every table. */
  lemma ErasurePlainlyTold(db: Db, c: Command, at: int)
    requires IsCommand(c) && c.request !in db.receipts && Erase(db, c, at).1.Completed?
    ensures IsWhatIsLeft(db.tables, Erase(db, c, at).0.tables, c)
  {
    hide Erase, IsCommand, IsWhatIsLeft, Erased, LookOf;
    ErasureIsExact(db, c, at);
    LeftPlainly(db.tables, c);
  }

  // ---- No text mentions them -----------------------------------------------

  /** The texts that are searched: subjects, bodies and HTML of mail that had a
      status, variables, notes, changes, reasons, inbox items and titles. */
  predicate IsSearchedText(t: Tables, text: string) {
    || (exists k | k in t.queue :: t.queue[k].status.Some?
          && (t.queue[k].subject == text || t.queue[k].body == text || t.queue[k].html == Some(text)))
    || (exists k | k in t.tasks :: t.tasks[k].variables == text)
    || (exists k | k in t.approvals :: t.approvals[k].variables == text)
    || (exists k | k in t.approvalEvents :: t.approvalEvents[k].note == Some(text))
    || (exists k | k in t.approvalEvents :: t.approvalEvents[k].changes == Some(text))
    || (exists k | k in t.reactivations :: t.reactivations[k].reason == Some(text))
    || (exists k | k in t.inbox ::
          t.inbox[k].title == text || t.inbox[k].summary == text || t.inbox[k].link == Some(text))
    || (exists k | k in t.sources :: t.sources[k].title == text)
    || (exists k | k in t.links :: t.links[k].url == Some(text))
  }

  lemma NotMailText(t: Tables, c: Command, l: Look, text: string, k: Id)
    requires Agrees(t, c, l) && Mentions(t, c, text) && k in t.queue && !MailNames(l, t.queue[k])
    ensures t.queue[k].subject != text && t.queue[k].body != text && t.queue[k].html != Some(text)
  {
    hide Names, Mentions, Theirs, WentTo;
  }

  lemma NotSearched(t: Tables, u: Tables, c: Command, text: string)
    requires IsCommand(c) && Mentions(t, c, text)
    requires NoTextNamesThem(u, LookOf(t, c))
    requires forall k | k in u.queue && u.queue[k].status.Some? :: !MailNames(LookOf(t, c), u.queue[k])
    ensures !IsSearchedText(u, text)
  {
    hide Mentions, LookOf, IsCommand, MailNames, LinkNames, Names, Theirs, WentTo, Unescape;
    var l := LookOf(t, c);
    LookAgrees(t, c);
    assert Names(l, text);
    forall k | k in u.queue && u.queue[k].status.Some?
      ensures u.queue[k].subject != text && u.queue[k].body != text && u.queue[k].html != Some(text)
    {
      MailAgrees(t, c, l, u.queue[k]);
    }
    LinkAgrees(t, c, text);
  }

  /** After a receipt no text that is searched has an address of the command in
      it, in any case, or the full name of anyone on a row of theirs: whatever
      comes before and after. */
  lemma NoTextHoldsThem(db: Db, c: Command, at: int, before: string, s: string, after: string)
    requires IsCommand(c) && c.request !in db.receipts && Erase(db, c, at).1.Completed?
    requires IsThem(db.tables, c, s)
    ensures !IsSearchedText(Erase(db, c, at).0.tables, before + s + after)
  {
    hide Erase, IsCommand, IsThem, LookOf, IsSearchedText, Mentions, NoTextNamesThem, MailNames, NoRowButPeople,
      NoActorIsThem, GoesToThemAlone;
    HeldIsMentioned(db.tables, c, before, s, after);
    ReceiptMeansGone(db, c, at);
    SentMailNamesNoOne(db, c, at);
    NotSearched(db.tables, Erase(db, c, at).0.tables, c, before + s + after);
  }

  /** And so has none an address of theirs or a name that was anchored to them
      when the command was first called, however often it had to be called. */
  lemma NoTextHoldsAnAnchoredName(trail: seq<Db>, c: Command, name: string, at: int, before: string, s: string,
                                  after: string)
    requires IsCommand(c) && IsTrail(trail, c)
    requires IsAnchored(trail[0].tables, c.subject, Emails(c), name) && IsFullNameOf(Lower(s), name)
    requires c.request !in trail[|trail| - 1].receipts && Erase(trail[|trail| - 1], c, at).1.Completed?
    ensures !IsSearchedText(Erase(trail[|trail| - 1], c, at).0.tables, before + s + after)
  {
    hide IsCommand, IsAnchored, Erase, IsSearchedText, IsFullNameOf, LookOf, IsMove, NoTextNamesThem, MailNames,
      FullName, IsSearchable;
    FullNameExactly(Lower(s), name);
    AnchoredNamesAreCleared(trail, c, name, at);
    NeedlesPlainly(trail[|trail| - 1].tables, c, s);
    NoTextHoldsThem(trail[|trail| - 1], c, at, before, s, after);
  }

  // ---- When a call completes -----------------------------------------------

  /** Mail a call waits for: to the person, and with the mailer; or to anyone
      else, mentioning them, and not sent yet. */
  ghost predicate IsAwaited(t: Tables, c: Command, q: QueueRow) {
    if WentTo(c, q) then q.status == Some(Processing)
    else (q.status == Some(Pending) || q.status == Some(Processing)) && MailMentions(t, c, q)
  }

  /** Two mails of one News record that a completed erasure would leave without
      an address: one to the person that is out, and one that is too or has no
      address and stays. */
  predicate SharesARecord(t: Tables, c: Command, q: QueueRow, r: QueueRow) {
    && q.sourceRef.Some? && q.sourceRef == r.sourceRef
    && WentTo(c, q) && IsOut(q)
    && ((WentTo(c, r) && IsOut(r)) || (r.email == "" && !(WentTo(c, r) && IsStill(r))))
  }

  lemma FlightPlainly(t: Tables, c: Command)
    requires IsCommand(c)
    ensures MailInFlight(t, LookOf(t, c)) <==> exists k | k in t.queue :: IsAwaited(t, c, t.queue[k])
  {
    hide IsCommand, LookOf, MailNames, MailMentions, Names, Mentions, Theirs, WentTo;
    var l := LookOf(t, c);
    LookAgrees(t, c);
    forall k | k in t.queue
      ensures IsInFlight(l, t.queue[k]) <==> IsAwaited(t, c, t.queue[k])
    {
      MailAgrees(t, c, l, t.queue[k]);
    }
  }

  lemma RecordsSharedPlainly(t: Tables, c: Command)
    requires IsCommand(c)
    ensures SharesNews(t, LookOf(t, c))
            <==> exists j, k | j in t.queue && k in t.queue && j != k :: SharesARecord(t, c, t.queue[j], t.queue[k])
  {
    hide IsCommand, LookOf, Names, Mentions, Theirs, WentTo;
    var l := LookOf(t, c);
    LookAgrees(t, c);
    forall j, k | j in t.queue && k in t.queue
      ensures MeetIn(l, t.queue[j], t.queue[k]) <==> SharesARecord(t, c, t.queue[j], t.queue[k])
    {
    }
  }

  /** A first call on tables as the database keeps them waits exactly when there
      is mail it must wait for, is rolled back with nothing kept exactly when
      there is none and two mails share a record, and completes otherwise. */
  lemma CompletesPlainly(db: Db, c: Command, at: int)
    requires IsCommand(c) && c.request !in db.receipts && Sound(db.tables)
    ensures var t, (after, answer) := db.tables, Erase(db, c, at);
            var waits := exists k | k in t.queue :: IsAwaited(t, c, t.queue[k]);
            var shares := exists j, k | j in t.queue && k in t.queue && j != k ::
                            SharesARecord(t, c, t.queue[j], t.queue[k]);
            && (answer.InProgress? <==> waits)
            && (answer.RolledBack? <==> !waits && shares)
            && (answer.Completed? <==> !waits && !shares)
            && (answer.RolledBack? ==> after == db)
  {
    hide Erase, IsCommand, Sound, MailInFlight, SharesNews, IsAwaited, SharesARecord, LookOf;
    CompletesExactly(db, c, at);
    FlightPlainly(db.tables, c);
    RecordsSharedPlainly(db.tables, c);
  }

  /** A call writes a receipt exactly when it completes: with the time it was
      given, under its own request, beside the others; any other call leaves
      the receipts, and what is kept of a call that is not rolled back is what
      the deferred triggers take. */
  lemma ReceiptsExactly(db: Db, c: Command, at: int)
    ensures var (after, answer) := Erase(db, c, at);
            if c.request in db.receipts then after == db && answer == Completed(db.receipts[c.request])
            else
              && (answer.Completed? ==>
                    answer.receipt.at == at && after.receipts == db.receipts[c.request := answer.receipt])
              && (!answer.Completed? ==> after.receipts == db.receipts)
              && (answer.RolledBack? ==> after == db)
              && (!answer.RolledBack? ==> CanCommit(after.tables))
  {
    hide DoAll, CountAll, LookOf, MailInFlight, Refused, CanCommit;
  }

  // ---- What a waiting call has done ----------------------------------------

  /** Of the mail: none to them is left unsent, none has a way in left, and none
      that is out mentions them. */
  ghost predicate MailIsCleared(t: Tables, u: Tables, c: Command) {
    forall k | k in u.queue ::
      if WentTo(c, u.queue[k]) then !IsStill(u.queue[k]) && u.queue[k].token.None?
      else !(IsOut(u.queue[k]) && MailMentions(t, c, u.queue[k]))
  }

  /** Of the texts: none but mail's and titles mentions them, no note is theirs,
      no inbox item is theirs, and no link or tracking event is of mail to them. */
  ghost predicate TextsAreCleared(t: Tables, u: Tables, c: Command) {
    && (forall k | k in u.tasks :: !Mentions(t, c, u.tasks[k].variables))
    && (forall k | k in u.approvals :: !Mentions(t, c, u.approvals[k].variables))
    && (forall k | k in u.approvalEvents && IsNote(u.approvalEvents[k]) ::
          u.approvalEvents[k].actor != Some(c.subject) && !Mentions(t, c, u.approvalEvents[k].note.value))
    && (forall k | k in u.approvalEvents && u.approvalEvents[k].changes.Some? ::
          !Mentions(t, c, u.approvalEvents[k].changes.value))
    && (forall k | k in u.reactivations && u.reactivations[k].reason.Some? ::
          !Mentions(t, c, u.reactivations[k].reason.value))
    && (forall k | k in u.inbox :: u.inbox[k].user != c.subject && !ItemMentions(t, c, u.inbox[k]))
    && (forall k | k in u.links && u.links[k].url.Some? :: !LinkMentions(t, c, u.links[k].url.value))
    && (forall k | k in u.events && u.events[k] in u.queue :: !WentTo(c, u.queue[u.events[k]]))
  }

  /** Of the subjects: no send and no archiving is theirs, and no Forms source
      that is theirs, mentions them or has them is in use. */
  ghost predicate SubjectsAreCleared(t: Tables, u: Tables, c: Command) {
    && (forall k | k in u.tasks :: u.tasks[k].sentBy != c.subject)
    && (forall k | k in u.templateArchivers :: u.templateArchivers[k] != Some(c.subject))
    && (forall k | k in u.listArchivers :: u.listArchivers[k] != Some(c.subject))
    && (forall k | k in u.sources && !u.sources[k].invalidated ::
          && u.sources[k].owner != c.subject && !Mentions(t, c, u.sources[k].title)
          && (forall p | p in u.sourcePeople && p.0 == k :: !IsTheirAddress(c, u.sourcePeople[p].email)))
  }

  /** What a waiting call leaves for the last one: everything their names are
      found by but their unsent mail. */
  predicate IsNotYetTouched(t: Tables, u: Tables) {
    && SameElsewhere(t, u)
    && u.memberships == t.memberships && u.sends == t.sends
    && u.unsubscribes == t.unsubscribes && u.removals == t.removals
  }

  lemma FirstStepTouchesNot(step: Step, t: Tables, l: Look)
    requires IsFirst(step)
    ensures IsNotYetTouched(t, Do(step, t, l))
  {
    hide SameElsewhere, RecipientsAfter, QueueAfter, TasksAfter, LinksAfter, EventsAfter, ApprovalsAfter,
      PeopleAfter, ApprovalEventsAfter, SourcesAfter, SourcePeopleAfter, VersionsAfter, SensitiveChangesAfter,
      ContentViewsAfter, SuppressionsAfter, ReactivationsAfter, InboxAfter, TemplateArchiversAfter,
      ListArchiversAfter;
    FirstStepsElsewhere(step, t, l);
  }

  lemma {:induction false} FirstStepsTouchNot(steps: seq<Step>, t: Tables, l: Look)
    requires forall i | 0 <= i < |steps| :: IsFirst(steps[i])
    ensures IsNotYetTouched(t, DoAll(steps, t, l))
  {
    hide Do, IsNotYetTouched;
    if steps == [] {
      Untouched(t);
    } else {
      FirstStepTouchesNot(steps[0], t, l);
      FirstStepsTouchNot(steps[1..], Do(steps[0], t, l), l);
      TouchedInTurn(t, Do(steps[0], t, l), DoAll(steps, t, l));
    }
  }

  lemma Untouched(t: Tables)
    ensures IsNotYetTouched(t, t)
  {
  }

  lemma TouchedInTurn(t: Tables, u: Tables, v: Tables)
    requires IsNotYetTouched(t, u) && IsNotYetTouched(u, v)
    ensures IsNotYetTouched(t, v)
  {
  }

  lemma IdleMail(t: Tables, u: Tables, c: Command, l: Look)
    requires Agrees(t, c, l)
    requires Idle(CloseTokens, u, l) && Idle(QueuedRows, u, l) && Idle(NamingBodies, u, l)
    ensures MailIsCleared(t, u, c)
  {
    hide Names, Mentions, MailNames, MailMentions, Theirs, WentTo;
    forall k | k in u.queue
      ensures MailNames(l, u.queue[k]) <==> MailMentions(t, c, u.queue[k])
    {
      MailAgrees(t, c, l, u.queue[k]);
    }
  }

  lemma IdleRequestTexts(t: Tables, u: Tables, c: Command, l: Look)
    requires Agrees(t, c, l) && IsLook(l)
    requires Idle(SendVariables, u, l) && Idle(ApprovalVariables, u, l) && Idle(ApprovalNotes, u, l)
    requires Idle(ApprovalChanges, u, l) && Idle(Reasons, u, l)
    ensures forall k | k in u.tasks :: !Mentions(t, c, u.tasks[k].variables)
    ensures forall k | k in u.approvals :: !Mentions(t, c, u.approvals[k].variables)
    ensures forall k | k in u.approvalEvents && IsNote(u.approvalEvents[k]) ::
              u.approvalEvents[k].actor != Some(c.subject) && !Mentions(t, c, u.approvalEvents[k].note.value)
    ensures forall k | k in u.approvalEvents && u.approvalEvents[k].changes.Some? ::
              !Mentions(t, c, u.approvalEvents[k].changes.value)
    ensures forall k | k in u.reactivations && u.reactivations[k].reason.Some? ::
              !Mentions(t, c, u.reactivations[k].reason.value)
  {
    hide Names, Mentions, Alone, Theirs, WentTo, IsLook;
    Constants(l);
  }

  lemma IdleTraces(t: Tables, u: Tables, c: Command, l: Look)
    requires Agrees(t, c, l) && forall url :: LinkNames(url, l.needles) <==> LinkMentions(t, c, url)
    requires Idle(OwnInbox, u, l) && Idle(NamingInbox, u, l) && Idle(ClearLinks, u, l) && Idle(DropEvents, u, l)
    ensures forall k | k in u.inbox :: u.inbox[k].user != c.subject && !ItemMentions(t, c, u.inbox[k])
    ensures forall k | k in u.links && u.links[k].url.Some? :: !LinkMentions(t, c, u.links[k].url.value)
    ensures forall k | k in u.events && u.events[k] in u.queue :: !WentTo(c, u.queue[u.events[k]])
  {
    hide Names, Mentions, Alone, Theirs, WentTo, LinkNames, LinkMentions;
  }

  lemma IdleSenders(t: Tables, u: Tables, c: Command, l: Look)
    requires Agrees(t, c, l)
    requires Idle(Senders, u, l) && Idle(TemplateArchivers, u, l) && Idle(ListArchivers, u, l)
    requires Idle(InvalidateSources, u, l)
    ensures SubjectsAreCleared(t, u, c)
  {
    hide Names, Mentions, Theirs, WentTo, IsTheirAddress, Lower;
  }

  /** A call that has to wait has already cleared all that: what is still sent
      out or archived, read or opened in between tells no one of them; and it
      has not touched what the last call takes them out of. */
  lemma WaitingPlainlyTold(db: Db, c: Command, at: int)
    requires IsCommand(c) && Erase(db, c, at).1.InProgress?
    ensures var t, u := db.tables, Erase(db, c, at).0.tables;
            && MailIsCleared(t, u, c) && TextsAreCleared(t, u, c) && SubjectsAreCleared(t, u, c)
            && IsNotYetTouched(t, u)
  {
    hide DoAll, Refused, CanCommit, MailInFlight, IsLook, Needles, Idle, Emails, IsCommand, Agrees, MailIsCleared,
      SubjectsAreCleared, IsNotYetTouched, LinkNames, LinkMentions, Mentions, ItemMentions, WentTo;
    var t, l := db.tables, LookOf(db.tables, c);
    var u := DoAll(FIRST_STEPS, t, l);
    CommandLooks(t, c);
    LookAgrees(t, c);
    FirstStepsAreFirst();
    FirstStepsTouchNot(FIRST_STEPS, t, l);
    FirstAreIdle(t, l);
    IdleMail(t, u, c, l);
    IdleRequestTexts(t, u, c, l);
    forall url
      ensures LinkNames(url, l.needles) <==> LinkMentions(t, c, url)
    {
      LinkAgrees(t, c, url);
    }
    IdleTraces(t, u, c, l);
    IdleSenders(t, u, c, l);
  }

  lemma FirstAreIdle(t: Tables, l: Look)
    requires IsLook(l)
    ensures forall step | IsFirst(step) :: Idle(step, DoAll(FIRST_STEPS, t, l), l)
  {
    hide DoAll, IsLook, Idle;
    forall step | IsFirst(step)
      ensures Idle(step, DoAll(FIRST_STEPS, t, l), l)
    {
      EveryStepIsRun(step);
      assert step in FIRST_STEPS && StaysDone(step, l);
      EachIsDone(FIRST_STEPS, step, t, l);
    }
  }
}
