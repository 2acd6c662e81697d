// When an erasure completes: what of the database's own rules can refuse it.
module ErasureCompletes {
  import opened Options
  import opened Text
  import opened Erasure
  import opened ErasureProofs
  import opened ErasureDone
  import opened ErasureExact
  import opened ErasureResults
  import opened ErasureNames
  import opened ErasureApprovals

  /** Tables as the database keeps them between transactions. */
  predicate Sound(t: Tables) {
    NewsOnce(t) && OncePerRequest(t) && CanCommit(t)
  }

  // ---- Statements in turn --------------------------------------------------

  lemma {:induction false} RefusedInTurn(a: seq<Step>, b: seq<Step>, t: Tables, l: Look)
    ensures Refused(a + b, t, l) <==> Refused(a, t, l) || Refused(b, DoAll(a, t, l), l)
  {
    hide Do, IsRefused;
    if a == [] {
      assert a + b == b;
    } else {
      assert (a + b)[1..] == a[1..] + b;
      RefusedInTurn(a[1..], b, Do(a[0], t, l), l);
    }
  }

  lemma RefusedAlone(step: Step, t: Tables, l: Look)
    ensures Refused([step], t, l) <==> IsRefused(step, t, l)
    ensures DoAll([step], t, l) == Do(step, t, l)
  {
    hide Do, IsRefused;
    assert [step][1..] == [];
  }

  lemma StepKeepsOnce(step: Step, t: Tables, l: Look)
    requires IsLook(l) && OncePerRequest(t)
    ensures OncePerRequest(Do(step, t, l))
  {
    hide Do, IsLook, OncePerRequest, PeopleAfter;
    match step {
      case StandIns => StandInsKeepAddressesOnce(t, l);
      case ApprovalPeople => ApprovalPeopleKeepAddressesOnce(t, l);
      case _ =>
        PeopleOf(step, t, l);
        NoPeopleTouched(step, t, l);
        SamePeopleOnce(t, Do(step, t, l));
    }
  }

  lemma SamePeopleOnce(t: Tables, u: Tables)
    requires u.people == t.people
    ensures OncePerRequest(u) == OncePerRequest(t)
  {
    hide Lower;
  }

  lemma SameQueueOnce(t: Tables, u: Tables)
    requires u.queue == t.queue
    ensures NewsOnce(u) == NewsOnce(t)
  {
    hide IsSameNews;
  }

  /** No statement but the emptying of mail is refused. */
  lemma {:induction false} OthersAreNotRefused(steps: seq<Step>, t: Tables, l: Look)
    requires IsLook(l) && OncePerRequest(t) && OwnMail !in steps
    ensures !Refused(steps, t, l) && OncePerRequest(DoAll(steps, t, l))
  {
    hide Do, IsLook, OncePerRequest, NewsOnce;
    if steps != [] {
      StepKeepsOnce(steps[0], t, l);
      OthersAreNotRefused(steps[1..], Do(steps[0], t, l), l);
    }
  }

  const BEFORE_MAIL := LAST_STEPS[..15]
  const AFTER_MAIL := LAST_STEPS[16..]

  lemma MailSplits()
    ensures LAST_STEPS == BEFORE_MAIL + ([OwnMail] + AFTER_MAIL)
    ensures OwnMail !in FIRST_STEPS && OwnMail !in BEFORE_MAIL && AFTER_MAIL == [Memberships, Recipients]
  {
    assert LAST_STEPS[15] == OwnMail && LAST_STEPS[16] == Memberships && LAST_STEPS[17] == Recipients;
  }

  lemma LeavesQueueAlone(t: Tables, l: Look)
    ensures DoAll([Memberships, Recipients], t, l).queue == t.queue
    ensures DoAll([Memberships, Recipients], t, l).people == t.people
  {
    hide Do, DoAll;
    RefusedAlone(Recipients, Do(Memberships, t, l), l);
    assert [Memberships, Recipients] == [Memberships] + [Recipients];
    DoFirst(Memberships, [Recipients], t, l);
    NoMailTouched(Memberships, t, l);
    NoMailTouched(Recipients, Do(Memberships, t, l), l);
  }

  lemma NoMailTouched(step: Step, t: Tables, l: Look)
    requires step == Memberships || step == Recipients
    ensures Do(step, t, l).queue == t.queue && Do(step, t, l).people == t.people
  {
    hide Do, HitsStandIn, Emptied, Theirs, MailNames;
    QueueOf(step, t, l);
    PeopleOf(step, t, l);
    NoPeopleTouched(step, t, l);
  }

  /** The last statements are refused exactly when they would leave a News
      record's mail twice at an address. */
  lemma LastStepsRefused(t: Tables, l: Look)
    requires IsLook(l) && OncePerRequest(t)
    ensures Refused(LAST_STEPS, t, l) <==> !NewsOnce(DoAll(LAST_STEPS, t, l))
    ensures OncePerRequest(DoAll(LAST_STEPS, t, l))
  {
    hide Do, DoAll, Refused, IsLook, OncePerRequest, NewsOnce;
    MailSplits();
    var before := DoAll(BEFORE_MAIL, t, l);
    var mail := Do(OwnMail, before, l);
    var rest := [OwnMail] + AFTER_MAIL;
    OthersAreNotRefused(BEFORE_MAIL, t, l);
    RefusedInTurn(BEFORE_MAIL, rest, t, l);
    DoInTurn(BEFORE_MAIL, rest, t, l);
    RefusedInTurn([OwnMail], AFTER_MAIL, before, l);
    RefusedAlone(OwnMail, before, l);
    DoInTurn([OwnMail], AFTER_MAIL, before, l);
    StepKeepsOnce(OwnMail, before, l);
    OthersAreNotRefused(AFTER_MAIL, mail, l);
    LeavesQueueAlone(mail, l);
    SameQueueOnce(mail, DoAll(AFTER_MAIL, mail, l));
  }

  lemma {:induction false} ListKeepsOnce(steps: seq<Step>, t: Tables, l: Look)
    requires IsLook(l) && OncePerRequest(t)
    ensures OncePerRequest(DoAll(steps, t, l))
  {
    hide Do, IsLook, OncePerRequest;
    if steps != [] {
      StepKeepsOnce(steps[0], t, l);
      ListKeepsOnce(steps[1..], Do(steps[0], t, l), l);
    }
  }

  lemma PeopleSplit()
    ensures LAST_STEPS == LAST_STEPS[..12] + ([ApprovalPeople] + LAST_STEPS[13..])
  {
    assert LAST_STEPS[12] == ApprovalPeople;
  }

  /** What was not refused holds both rules, whatever it started with. */
  lemma UnrefusedIsOnce(t: Tables, l: Look)
    requires IsLook(l) && !Refused(LAST_STEPS, t, l)
    ensures NewsOnce(DoAll(LAST_STEPS, t, l)) && OncePerRequest(DoAll(LAST_STEPS, t, l))
  {
    hide Do, DoAll, Refused, IsLook, OncePerRequest, NewsOnce;
    MailSplits();
    UnrefusedMail(BEFORE_MAIL, AFTER_MAIL, t, l);
    PeopleSplit();
    UnrefusedPeople(LAST_STEPS[..12], LAST_STEPS[13..], t, l);
  }

  lemma UnrefusedMail(before: seq<Step>, after: seq<Step>, t: Tables, l: Look)
    requires after == [Memberships, Recipients] && !Refused(before + ([OwnMail] + after), t, l)
    ensures NewsOnce(DoAll(before + ([OwnMail] + after), t, l))
  {
    hide Do, DoAll, Refused, NewsOnce;
    var u := DoAll(before, t, l);
    RefusedInTurn(before, [OwnMail] + after, t, l);
    RefusedInTurn([OwnMail], after, u, l);
    RefusedAlone(OwnMail, u, l);
    DoInTurn(before, [OwnMail] + after, t, l);
    DoInTurn([OwnMail], after, u, l);
    LeavesQueueAlone(Do(OwnMail, u, l), l);
    SameQueueOnce(Do(OwnMail, u, l), DoAll(after, Do(OwnMail, u, l), l));
  }

  lemma UnrefusedPeople(before: seq<Step>, after: seq<Step>, t: Tables, l: Look)
    requires IsLook(l) && !Refused(before + ([ApprovalPeople] + after), t, l)
    ensures OncePerRequest(DoAll(before + ([ApprovalPeople] + after), t, l))
  {
    hide Do, DoAll, Refused, IsLook, OncePerRequest;
    var u := DoAll(before, t, l);
    RefusedInTurn(before, [ApprovalPeople] + after, t, l);
    RefusedInTurn([ApprovalPeople], after, u, l);
    RefusedAlone(ApprovalPeople, u, l);
    DoInTurn(before, [ApprovalPeople] + after, t, l);
    DoInTurn([ApprovalPeople], after, u, l);
    ListKeepsOnce(after, Do(ApprovalPeople, u, l), l);
  }

  // ---- Mail of one News record ---------------------------------------------

  /** Mail to the person that an erasure empties: its address goes. */
  predicate IsEmptiedMail(l: Look, q: QueueRow) {
    IsFinal(q) && Theirs(l, q)
  }

  /** One is emptied, and the other is too or has no address already and stays. */
  predicate MeetIn(l: Look, q: QueueRow, r: QueueRow) {
    && q.sourceRef.Some? && q.sourceRef == r.sourceRef && IsEmptiedMail(l, q)
    && (IsEmptiedMail(l, r) || (r.email == "" && !IsDropped(l, r)))
  }

  /** Two mails of one News record end without an address. */
  predicate SharesNews(t: Tables, l: Look) {
    exists j, k | j in t.queue && k in t.queue && j != k :: MeetIn(l, t.queue[j], t.queue[k])
  }

  lemma MailEnds(l: Look, q: QueueRow)
    requires !IsInFlight(l, q) && !IsDropped(l, q)
    ensures MailAfter(l, q).email == (if Theirs(l, q) then "" else q.email) && MailAfter(l, q).sourceRef == q.sourceRef
    ensures Theirs(l, q) ==> IsEmptiedMail(l, q)
  {
    hide Theirs, MailNames;
    StatusIsOne(q);
  }

  lemma EmptyIsEmpty(s: string)
    ensures Lower(s) == Lower("") <==> s == ""
  {
    assert Lower("") == "";
  }

  /** Two mails have one key after an erasure exactly when they meet without an
      address, one way or the other. */
  lemma SameNewsAfter(l: Look, q: QueueRow, r: QueueRow)
    requires !IsInFlight(l, q) && !IsInFlight(l, r) && !IsDropped(l, q) && !IsDropped(l, r) && !IsSameNews(q, r)
    ensures IsSameNews(MailAfter(l, q), MailAfter(l, r)) <==> MeetIn(l, q, r) || MeetIn(l, r, q)
  {
    hide MailAfter, Theirs, Lower, IsInFlight, IsDropped;
    MailEnds(l, q);
    MailEnds(l, r);
    EmptyIsEmpty(q.email);
    EmptyIsEmpty(r.email);
  }

  lemma FlightIsNone(t: Tables, l: Look)
    requires !MailInFlight(t, l)
    ensures forall k | k in t.queue :: !IsInFlight(l, t.queue[k])
  {
    hide IsInFlight;
  }

  lemma MeetingStays(l: Look, q: QueueRow, r: QueueRow)
    requires MeetIn(l, q, r)
    ensures !IsDropped(l, q) && !IsDropped(l, r)
  {
    hide Theirs;
  }

  lemma NewsOnceExactly(t: Tables, u: Tables, l: Look)
    requires NewsOnce(t) && !MailInFlight(t, l) && u.queue == QueueLeft(t, l)
    ensures NewsOnce(u) <==> !SharesNews(t, l)
  {
    hide MailAfter, IsDropped, MeetIn, IsSameNews, IsInFlight, MailInFlight;
    FlightIsNone(t, l);
    forall j, k | j in u.queue && k in u.queue && j != k
      ensures IsSameNews(u.queue[j], u.queue[k])
              <==> MeetIn(l, t.queue[j], t.queue[k]) || MeetIn(l, t.queue[k], t.queue[j])
    {
      SameNewsAfter(l, t.queue[j], t.queue[k]);
    }
    if j, k :| j in t.queue && k in t.queue && j != k && MeetIn(l, t.queue[j], t.queue[k]) {
      MeetingStays(l, t.queue[j], t.queue[k]);
      assert j in u.queue && k in u.queue;
      assert IsSameNews(u.queue[j], u.queue[k]);
    }
  }

  // ---- Mail in flight ------------------------------------------------------

  lemma FlightStays(t: Tables, u: Tables, l: Look)
    requires LessQueue(t, u, l)
    ensures MailInFlight(u, l) <==> MailInFlight(t, l)
  {
    hide Theirs, MailNames, LessQueue;
    if !MailInFlight(t, l) {
      NotInFlightStays(t, u, l);
    }
    if k :| k in t.queue && IsInFlight(l, t.queue[k]) {
      InFlightIsKept(t, u, l, k);
    }
  }

  lemma InFlightIsKept(t: Tables, u: Tables, l: Look, k: Id)
    requires LessQueue(t, u, l) && k in t.queue && IsInFlight(l, t.queue[k])
    ensures k in u.queue && IsInFlight(l, u.queue[k])
  {
    hide MailNames, Lower;
    assert k in u.queue;
    assert LessMail(l, t.queue[k], u.queue[k]);
  }

  // ---- What commits --------------------------------------------------------

  lemma FirstStepOwners(step: Step, t: Tables, l: Look)
    requires IsFirst(step)
    ensures var u := Do(step, t, l);
            u.sources.Keys == t.sources.Keys && forall k | k in t.sources :: u.sources[k].owner == t.sources[k].owner
  {
    hide Do, SourceConcerns;
    SourcesOf(step, t, l);
  }

  /** Who requests go to, and who made them and their sources. */
  predicate SameRequests(t: Tables, u: Tables) {
    && u.people == t.people
    && u.approvals.Keys == t.approvals.Keys
    && (forall a | a in t.approvals ::
          u.approvals[a].list == t.approvals[a].list && u.approvals[a].source == t.approvals[a].source
          && u.approvals[a].submitter == t.approvals[a].submitter)
    && u.sources.Keys == t.sources.Keys
    && (forall k | k in t.sources :: u.sources[k].owner == t.sources[k].owner)
  }

  lemma FirstStepSameRequests(step: Step, t: Tables, l: Look)
    requires IsFirst(step) && IsLook(l)
    ensures SameRequests(t, Do(step, t, l))
  {
    hide Do, IsLook, LessApprovals, LessApproval, IsFirst;
    FirstStepsPeople(step, t, l);
    FirstStepsSubmitters(step, t, l);
    FirstStepOwners(step, t, l);
    DoApprovals(step, t, l);
    SameTargets(t, Do(step, t, l), l);
  }

  lemma SameTargets(t: Tables, u: Tables, l: Look)
    requires LessApprovals(t, u, l)
    ensures forall a | a in t.approvals ::
              a in u.approvals && u.approvals[a].list == t.approvals[a].list
                  && u.approvals[a].source == t.approvals[a].source
  {
    hide Names;
  }

  lemma {:induction false} FirstStepsSameRequests(steps: seq<Step>, t: Tables, l: Look)
    requires IsLook(l) && forall i | 0 <= i < |steps| :: IsFirst(steps[i])
    ensures SameRequests(t, DoAll(steps, t, l))
  {
    hide Do, IsLook, IsFirst;
    if steps != [] {
      FirstStepSameRequests(steps[0], t, l);
      FirstStepsSameRequests(steps[1..], Do(steps[0], t, l), l);
    }
  }

  lemma SameAudience(t: Tables, u: Tables)
    requires SameRequests(t, u) && OneAudience(t)
    ensures OneAudience(u)
  {
    forall a
      ensures HasPeople(u, a) == HasPeople(t, a)
    {
    }
  }

  lemma FirstStepsCommit(t: Tables, l: Look)
    requires IsLook(l) && CanCommit(t)
    ensures CanCommit(DoAll(FIRST_STEPS, t, l))
  {
    hide DoAll, IsLook, OneAudience, SnapshotsHold, IsFirst, SameRequests, SourceConcerns;
    FirstStepsAreFirst();
    FirstStepsSameRequests(FIRST_STEPS, t, l);
    SameAudience(t, DoAll(FIRST_STEPS, t, l));
    SnapshotsAfter(t, l);
  }

  lemma LastStepsCommit(t: Tables, l: Look)
    requires IsLook(l) && OncePerRequest(t) && CanCommit(t) && !MailInFlight(DoAll(FIRST_STEPS, t, l), l)
    ensures CanCommit(DoAll(LAST_STEPS, DoAll(FIRST_STEPS, t, l), l))
  {
    hide DoAll, IsLook, OneAudience, OneAudienceFor, SnapshotsHold, SourceConcerns, OncePerRequest, MailInFlight,
      IsErased, Lessens, NoActorIsThem;
    var first := DoAll(FIRST_STEPS, t, l);
    AudiencesAgree(t, l);
    ListKeeps(FIRST_STEPS, t, l);
    ListKeeps(LAST_STEPS, first, l);
    AllAreDone(t, l);
    ActorsAreGone(DoAll(LAST_STEPS, first, l), l);
    AudiencesAgreeAfter(DoAll(LAST_STEPS, first, l), l);
    SnapshotsAfter(t, l);
  }

  // ---- The call ------------------------------------------------------------

  lemma MailLeft(t: Tables, l: Look)
    requires IsLook(l) && !MailInFlight(DoAll(FIRST_STEPS, t, l), l)
    ensures DoAll(LAST_STEPS, DoAll(FIRST_STEPS, t, l), l).queue == QueueLeft(t, l)
  {
    hide DoAll, IsLook, MailInFlight, QueueLeft, At;
    ErasedAt(t, l);
    QueueExact(t, l);
  }

  lemma FirstFlight(t: Tables, l: Look)
    requires IsLook(l)
    ensures MailInFlight(DoAll(FIRST_STEPS, t, l), l) <==> MailInFlight(t, l)
  {
    hide DoAll, IsLook, MailInFlight, Lessens, LessQueue;
    DoAllLessens(FIRST_STEPS, t, l);
    QueueLess(t, DoAll(FIRST_STEPS, t, l), l);
    FlightStays(t, DoAll(FIRST_STEPS, t, l), l);
  }

  /** A first call for a person, on tables as the database keeps them, waits
      exactly when mail it must change is on its way; fails, with nothing kept
      of it, exactly when two mails of one News record would be left without an
      address, both emptied or one emptied beside one that has none already;
      and completes otherwise. The database refuses nothing else it does, and
      is left as it keeps its tables. */
  lemma CompletesExactly(db: Db, c: Command, at: int)
    requires IsCommand(c) && c.request !in db.receipts && Sound(db.tables)
    ensures var (after, answer) := Erase(db, c, at);
            var l := LookOf(db.tables, c);
            && (answer.InProgress? <==> MailInFlight(db.tables, l))
            && (answer.RolledBack? <==> !MailInFlight(db.tables, l) && SharesNews(db.tables, l))
            && (answer.Completed? <==> !MailInFlight(db.tables, l) && !SharesNews(db.tables, l))
            && (answer.RolledBack? ==> after == db)
            && Sound(after.tables)
  {
    hide DoAll, CountAll, Refused, IsLook, IsCommand, LookOf, MailInFlight, SharesNews, NewsOnce, OncePerRequest,
      CanCommit, QueueLeft;
    var t, l := db.tables, LookOf(db.tables, c);
    var first := DoAll(FIRST_STEPS, t, l);
    CommandLooks(t, c);
    MailSplits();
    OthersAreNotRefused(FIRST_STEPS, t, l);
    FirstFlight(t, l);
    FirstStepsCommit(t, l);
    LastStepsRefused(first, l);
    if MailInFlight(t, l) {
      FirstNewsOnce(t, l);
    } else {
      LastStepsCommit(t, l);
      MailLeft(t, l);
      NewsOnceExactly(t, DoAll(LAST_STEPS, first, l), l);
    }
  }

  /** A completed erasure leaves tables as the database keeps them, whatever it
      started from. */
  lemma CompletedIsSound(db: Db, c: Command, at: int)
    requires IsCommand(c) && c.request !in db.receipts && Erase(db, c, at).1.Completed?
    ensures Sound(Erase(db, c, at).0.tables)
  {
    hide DoAll, CountAll, Refused, IsLook, IsCommand, LookOf, MailInFlight, NewsOnce, OncePerRequest, CanCommit;
    var l := LookOf(db.tables, c);
    CommandLooks(db.tables, c);
    UnrefusedIsOnce(DoAll(FIRST_STEPS, db.tables, l), l);
  }

  lemma FirstNewsOnce(t: Tables, l: Look)
    requires IsLook(l) && NewsOnce(t)
    ensures NewsOnce(DoAll(FIRST_STEPS, t, l))
  {
    hide Do, DoAll, IsLook, NewsOnce, IsFirst;
    FirstStepsAreFirst();
    FirstStepsNewsOnce(FIRST_STEPS, t, l);
  }

  lemma {:induction false} FirstStepsNewsOnce(steps: seq<Step>, t: Tables, l: Look)
    requires NewsOnce(t) && forall i | 0 <= i < |steps| :: IsFirst(steps[i])
    ensures NewsOnce(DoAll(steps, t, l))
  {
    hide Do, IsFirst, NewsOnce;
    if steps != [] {
      FirstStepNewsOnce(steps[0], t, l);
      FirstStepsNewsOnce(steps[1..], Do(steps[0], t, l), l);
    }
  }

  lemma FirstStepNewsOnce(step: Step, t: Tables, l: Look)
    requires NewsOnce(t) && IsFirst(step)
    ensures NewsOnce(Do(step, t, l))
  {
    hide Do, Lower, Theirs, MailNames, HitsBody, IsWaiting;
    QueueOf(step, t, l);
    var u := QueueAfter(step, t, l);
    forall k | k in u
      ensures k in t.queue && u[k].email == t.queue[k].email && u[k].sourceRef == t.queue[k].sourceRef
    {
    }
  }

  /** Of the people a News record went to one can be erased, and no other while
      their mail of it is in the queue: every later call for one of them waits
      or is rolled back, however often it is repeated. */
  lemma SecondOfARecordIsRefused(db: Db, c: Command, at: int, d: Command, later: int, j: Id, k: Id)
    requires IsCommand(c) && c.request !in db.receipts && Sound(db.tables) && Erase(db, c, at).1.Completed?
    requires IsCommand(d) && d.request !in Erase(db, c, at).0.receipts
    requires j in db.tables.queue && k in db.tables.queue && j != k
    requires db.tables.queue[j].sourceRef.Some? && db.tables.queue[j].sourceRef == db.tables.queue[k].sourceRef
    requires IsFinal(db.tables.queue[j]) && ToPerson(c.subject, Emails(c), db.tables.queue[j])
    requires IsFinal(db.tables.queue[k]) && ToPerson(d.subject, Emails(d), db.tables.queue[k])
    ensures var erased := Erase(db, c, at).0;
            var (after, answer) := Erase(erased, d, later);
            && !answer.Completed?
            && (!MailInFlight(erased.tables, LookOf(erased.tables, d)) ==> answer.RolledBack? && after == erased)
  {
    hide Erase, IsCommand, Sound, MailInFlight, Needles, Emails, ToPerson, Erased, QueueLeft;
    CompletesExactly(db, c, at);
    QueueIsLeft(db, c, at);
    var t, u := db.tables, Erase(db, c, at).0.tables;
    var l, m := LookOf(t, c), LookOf(u, d);
    NoneShared(t, l, j, k);
    EmptiedBeside(t, u, l, m, j, k);
    CompletesExactly(Erase(db, c, at).0, d, later);
  }

  lemma QueueIsLeft(db: Db, c: Command, at: int)
    requires IsCommand(c) && c.request !in db.receipts && Erase(db, c, at).1.Completed?
    ensures Erase(db, c, at).0.tables.queue == QueueLeft(db.tables, LookOf(db.tables, c))
  {
    hide Erase, LookOf, IsCommand, QueueLeft;
    ErasureIsExact(db, c, at);
  }

  lemma NoneShared(t: Tables, l: Look, j: Id, k: Id)
    requires !SharesNews(t, l) && j in t.queue && k in t.queue && j != k
    requires t.queue[j].sourceRef.Some? && t.queue[j].sourceRef == t.queue[k].sourceRef
    requires IsEmptiedMail(l, t.queue[j]) && IsFinal(t.queue[k])
    ensures !Theirs(l, t.queue[k])
  {
    hide Theirs;
    assert !MeetIn(l, t.queue[j], t.queue[k]);
  }

  lemma EmptiedBeside(t: Tables, u: Tables, l: Look, m: Look, j: Id, k: Id)
    requires u.queue == QueueLeft(t, l) && j in t.queue && k in t.queue && j != k
    requires t.queue[j].sourceRef.Some? && t.queue[j].sourceRef == t.queue[k].sourceRef
    requires IsEmptiedMail(l, t.queue[j]) && IsFinal(t.queue[k]) && Theirs(m, t.queue[k]) && !Theirs(l, t.queue[k])
    ensures SharesNews(u, m)
  {
    hide MailNames, Lower;
    assert j in u.queue && u.queue[j].email == "" && IsFinal(u.queue[j]);
    assert k in u.queue && Theirs(m, u.queue[k]) && IsFinal(u.queue[k]);
    assert MeetIn(m, u.queue[k], u.queue[j]);
  }
}
