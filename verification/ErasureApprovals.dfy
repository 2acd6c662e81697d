// What an erasure keeps of what requests and Forms sources promise: to whom a
// request goes, which send went to whom, and a source's snapshot.
module ErasureApprovals {
  import opened Options
  import opened Text
  import opened Erasure
  import opened ErasureProofs
  import opened ErasureDone
  import opened ErasureExact
  import opened ErasureResults

  // ---- What the database promises ------------------------------------------

  predicate GoesToPeople(t: Tables, approval: Id) {
    approval in t.approvals && t.approvals[approval].list.None? && t.approvals[approval].source.None?
  }

  /** Every send of a request to people is paired with the person at its place. */
  predicate IsPaired(t: Tables) {
    forall k | k in t.sends && GoesToPeople(t, k.0) :: k in t.people
  }

  /** The subject the two sides of a Forms request share, once replaced. */
  function Norm(l: Look, sub: string): (r: string) {
    if sub == l.subject then DELETED_SUBJECT else sub
  }

  /** OneAudience with the person's subject and the stand-in's taken as one:
      what holds between the statements that replace the two sides. */
  predicate OneAudienceFor(t: Tables, l: Look) {
    forall a | a in t.approvals ::
      match t.approvals[a].source
      case None => t.approvals[a].list.Some? != HasPeople(t, a)
      case Some(s) =>
        t.approvals[a].list.None? && !HasPeople(t, a) && s in t.sources
        && Norm(l, t.sources[s].owner) == Norm(l, t.approvals[a].submitter)
  }

  predicate Promises(t: Tables, l: Look) {
    OneAudienceFor(t, l) && OncePerRequest(t)
  }

  // ---- Each statement keeps it ----------------------------------------------

  /** Who a request has, but for names and variables, is as it was. */
  predicate SameAudiences(t: Tables, u: Tables, l: Look) {
    && u.approvals.Keys == t.approvals.Keys
    && (forall a | a in t.approvals ::
          u.approvals[a].list == t.approvals[a].list && u.approvals[a].source == t.approvals[a].source
          && Norm(l, u.approvals[a].submitter) == Norm(l, t.approvals[a].submitter))
    && u.sources.Keys == t.sources.Keys
    && (forall s | s in t.sources :: Norm(l, u.sources[s].owner) == Norm(l, t.sources[s].owner))
  }

  lemma LessKeepsAudiences(t: Tables, u: Tables, l: Look)
    requires IsLook(l) && LessApprovals(t, u, l) && LessSources(t, u, l)
    ensures SameAudiences(t, u, l)
  {
    hide Names, SourceConcerns;
  }

  /** Requests that have someone exactly when they had, have one audience. */
  lemma AudiencesKept(t: Tables, u: Tables, l: Look)
    requires OneAudienceFor(t, l) && SameAudiences(t, u, l)
    requires forall a | a in t.approvals :: HasPeople(u, a) == HasPeople(t, a)
    ensures OneAudienceFor(u, l)
  {
    hide HasPeople, Norm;
  }

  lemma StandInsKeepPlaces(t: Tables, l: Look)
    ensures var u := Do(StandIns, t, l).people;
            && u.Keys == t.people.Keys
            && forall k | k in u :: u[k] == if HitsStandIn(t, l, k) then STAND_IN else t.people[k]
  {
    hide Do, HitsStandIn;
    PeopleOf(StandIns, t, l);
  }

  lemma StandInsKeep(t: Tables, l: Look)
    requires IsLook(l) && Promises(t, l)
    ensures Promises(Do(StandIns, t, l), l)
  {
    hide Do, Lower, HitsStandIn, IsLook, Lessens, LessApprovals, LessSources, OneAudienceFor, OncePerRequest,
      SameAudiences;
    var u := Do(StandIns, t, l);
    DoApprovals(StandIns, t, l);
    DoSources(StandIns, t, l);
    LessKeepsAudiences(t, u, l);
    StandInsKeepPlaces(t, l);
    forall a
      ensures HasPeople(u, a) == HasPeople(t, a)
    {
    }
    AudiencesKept(t, u, l);
    StandInsKeepAddressesOnce(t, l);
  }

  /** No statement changes which requests go to people. */
  lemma StepSamePeopleRequests(step: Step, t: Tables, l: Look)
    requires IsLook(l)
    ensures forall a :: GoesToPeople(Do(step, t, l), a) == GoesToPeople(t, a)
  {
    hide Do, IsLook, LessApprovals, LessSources, SameAudiences, GoesToPeople;
    DoApprovals(step, t, l);
    DoSources(step, t, l);
    LessKeepsAudiences(t, Do(step, t, l), l);
    SamePeopleRequests(t, Do(step, t, l), l);
  }

  lemma SamePeopleRequests(t: Tables, u: Tables, l: Look)
    requires SameAudiences(t, u, l)
    ensures forall a :: GoesToPeople(u, a) == GoesToPeople(t, a)
  {
    hide Norm;
  }

  lemma StandInsKeepAddressesOnce(t: Tables, l: Look)
    requires IsLook(l) && OncePerRequest(t)
    ensures OncePerRequest(Do(StandIns, t, l))
  {
    hide Do, Lower, HitsStandIn, IsLook;
    var u := Do(StandIns, t, l);
    Constants(l);
    StandInsKeepPlaces(t, l);
    forall j, k | j in u.people && k in u.people && j.0 == k.0 && Lower(u.people[j].email) == Lower(u.people[k].email)
      ensures j == k
    {
      OneStandIn(t, l, j, k);
      if HitsStandIn(t, l, j) && !HitsStandIn(t, l, k) {
        NoStandInBefore(t, l, j, k);
      }
      if HitsStandIn(t, l, k) && !HitsStandIn(t, l, j) {
        NoStandInBefore(t, l, k, j);
      }
    }
  }

  lemma OneStandIn(t: Tables, l: Look, j: (Id, nat), k: (Id, nat))
    requires j.0 == k.0
    ensures HitsStandIn(t, l, j) && HitsStandIn(t, l, k) ==> j == k
  {
    hide CanStandIn;
    if HitsStandIn(t, l, j) && HitsStandIn(t, l, k) {
      assert j in t.people && k in t.people by {
        StandInsReplaceThePerson(t, l);
      }
    }
  }

  lemma NoStandInBefore(t: Tables, l: Look, j: (Id, nat), k: (Id, nat))
    requires HitsStandIn(t, l, j) && k in t.people && k.0 == j.0
    ensures Lower(t.people[k].email) != DELETED_EMAIL
  {
    hide Lower;
  }

  lemma ApprovalPeopleKeep(t: Tables, l: Look)
    requires IsLook(l) && Promises(t, l)
    ensures Promises(Do(ApprovalPeople, t, l), l)
  {
    hide Do, Lower, IsLook, LessApprovals, LessSources, OneAudienceFor, OncePerRequest, SameAudiences, HasPeople;
    var u := Do(ApprovalPeople, t, l);
    DoApprovals(ApprovalPeople, t, l);
    DoSources(ApprovalPeople, t, l);
    LessKeepsAudiences(t, u, l);
    forall a | a in t.approvals
      ensures HasPeople(u, a) == HasPeople(t, a)
    {
      PeopleStay(t, l, a);
      if t.approvals[a].list.Some? {
        AListHasNoPeople(t, l, a);
      }
    }
    AudiencesKept(t, u, l);
    ApprovalPeopleKeepAddressesOnce(t, l);
  }

  lemma AListHasNoPeople(t: Tables, l: Look, a: Id)
    requires OneAudienceFor(t, l) && a in t.approvals && t.approvals[a].list.Some?
    ensures !HasPeople(t, a)
  {
    hide HasPeople, Norm;
  }

  lemma ApprovalPeopleKeepAddressesOnce(t: Tables, l: Look)
    requires OncePerRequest(t)
    ensures OncePerRequest(Do(ApprovalPeople, t, l))
  {
    hide Do, Lower, Emptied;
    var u := Do(ApprovalPeople, t, l);
    PeopleOf(ApprovalPeople, t, l);
    forall j, k | j in u.people && k in u.people && j.0 == k.0 && Lower(u.people[j].email) == Lower(u.people[k].email)
      ensures j == k
    {
      if j in Emptied(t, l) {
        EmptiedAlone(t, l, j);
      } else if k in Emptied(t, l) {
        EmptiedAlone(t, l, k);
      }
    }
  }

  lemma ApprovalPeopleKeepPairs(t: Tables, l: Look)
    requires IsPaired(t) && Idle(SendLinks, t, l)
    requires forall a :: GoesToPeople(Do(ApprovalPeople, t, l), a) == GoesToPeople(t, a)
    ensures IsPaired(Do(ApprovalPeople, t, l))
  {
    hide Do, Lower, Emptied, GoesToPeople;
    var u := Do(ApprovalPeople, t, l);
    PeopleOf(ApprovalPeople, t, l);
    SendsOf(ApprovalPeople, t, l);
    forall k | k in u.sends && GoesToPeople(u, k.0)
      ensures k in u.people
    {
      assert GoesToPeople(t, k.0) && k in t.people && !HitsSend(t, l, k);
    }
  }

  lemma EmptiedExactly(t: Tables, l: Look, a: Id)
    requires a in t.approvals
    ensures forall k | k in Emptied(t, l) :: HasPeople(t, k.0)
    ensures t.approvals[a].list.None? && HasPeople(t, a) && IsEmptied(t, l, a) ==> (a, 1) in Emptied(t, l)
  {
    hide Lower;
  }

  /** A request with people still has at least one. */
  lemma PeopleStay(t: Tables, l: Look, a: Id)
    requires a in t.approvals
    ensures var u := Do(ApprovalPeople, t, l);
            && (t.approvals[a].list.None? ==> HasPeople(u, a) == HasPeople(t, a))
            && (!HasPeople(t, a) ==> !HasPeople(u, a))
  {
    hide Do, Lower, Emptied;
    var u := Do(ApprovalPeople, t, l);
    PeopleOf(ApprovalPeople, t, l);
    EmptiedExactly(t, l, a);
    if HasPeople(t, a) && t.approvals[a].list.None? {
      if IsEmptied(t, l, a) {
        assert (a, 1) in u.people;
      } else {
        var o :| o in t.people && o.0 == a && Lower(t.people[o].email) !in l.emails;
        assert o in u.people;
      }
    }
    if k :| k in u.people && k.0 == a {
      assert HasPeople(t, a);
    }
  }

  /** A stand-in put in where no one is left is alone in its request. */
  lemma EmptiedAlone(t: Tables, l: Look, k: (Id, nat))
    requires k in Emptied(t, l)
    ensures k.1 == 1 && forall o | o in Do(ApprovalPeople, t, l).people && o.0 == k.0 :: o == k
  {
    hide Do, Lower;
    PeopleOf(ApprovalPeople, t, l);
  }

  lemma OthersKeep(step: Step, t: Tables, l: Look)
    requires IsLook(l) && Promises(t, l) && step != StandIns && step != ApprovalPeople
    ensures Promises(Do(step, t, l), l)
  {
    hide Do, Lower, IsLook, LessApprovals, LessSources, OneAudienceFor, SameAudiences;
    var u := Do(step, t, l);
    DoApprovals(step, t, l);
    DoSources(step, t, l);
    LessKeepsAudiences(t, u, l);
    PeopleOf(step, t, l);
    NoPeopleTouched(step, t, l);
    forall a
      ensures HasPeople(u, a) == HasPeople(t, a)
    {
    }
    AudiencesKept(t, u, l);
  }

  /** Every statement keeps what is promised. */
  lemma StepKeeps(step: Step, t: Tables, l: Look)
    requires IsLook(l) && Promises(t, l)
    ensures Promises(Do(step, t, l), l)
  {
    hide Do, Promises, IsLook;
    match step {
      case StandIns => StandInsKeep(t, l);
      case ApprovalPeople => ApprovalPeopleKeep(t, l);
      case _ => OthersKeep(step, t, l);
    }
  }

  lemma {:induction false} ListKeeps(steps: seq<Step>, t: Tables, l: Look)
    requires IsLook(l) && Promises(t, l)
    ensures Promises(DoAll(steps, t, l), l)
  {
    hide Do, Promises, IsLook;
    if steps != [] {
      StepKeeps(steps[0], t, l);
      ListKeeps(steps[1..], Do(steps[0], t, l), l);
    }
  }

  // ---- Sends and their people ----------------------------------------------

  lemma StepKeepsPairs(step: Step, t: Tables, l: Look)
    requires IsLook(l) && IsPaired(t) && (step == ApprovalPeople ==> Idle(SendLinks, t, l))
    ensures IsPaired(Do(step, t, l))
  {
    hide Do, IsLook, Idle, GoesToPeople, LessSends;
    StepSamePeopleRequests(step, t, l);
    if step == ApprovalPeople {
      ApprovalPeopleKeepPairs(t, l);
    } else {
      DoSends(step, t, l);
      SendsOnlyGo(t, Do(step, t, l), l);
      PeopleStayPut(step, t, l);
    }
  }

  lemma PeopleStayPut(step: Step, t: Tables, l: Look)
    requires step != ApprovalPeople
    ensures Do(step, t, l).people.Keys == t.people.Keys
  {
    hide Do, HitsStandIn;
    PeopleOf(step, t, l);
    if step == StandIns {
      StandInsKeepPlaces(t, l);
    } else {
      NoPeopleTouched(step, t, l);
    }
  }

  lemma SendsOnlyGo(t: Tables, u: Tables, l: Look)
    requires LessSends(t, u, l)
    ensures u.sends.Keys <= t.sends.Keys
  {
    hide HitsSend;
  }

  lemma {:induction false} ListKeepsPairs(steps: seq<Step>, t: Tables, l: Look)
    requires IsLook(l) && IsPaired(t) && ApprovalPeople !in steps
    ensures IsPaired(DoAll(steps, t, l))
  {
    hide Do, IsPaired, IsLook;
    if steps != [] {
      StepKeepsPairs(steps[0], t, l);
      ListKeepsPairs(steps[1..], Do(steps[0], t, l), l);
    }
  }

  const BEFORE_PEOPLE := LAST_STEPS[..11]
  const AFTER_PEOPLE := LAST_STEPS[13..]

  lemma LastStepsSplit()
    ensures LAST_STEPS == BEFORE_PEOPLE + ([SendLinks] + ([ApprovalPeople] + AFTER_PEOPLE))
    ensures ApprovalPeople !in BEFORE_PEOPLE && ApprovalPeople !in AFTER_PEOPLE
  {
    assert LAST_STEPS[11] == SendLinks && LAST_STEPS[12] == ApprovalPeople;
  }

  lemma LastStepsKeepPairs(t: Tables, l: Look)
    requires IsLook(l) && IsPaired(t)
    ensures IsPaired(DoAll(LAST_STEPS, t, l))
  {
    hide Do, DoAll, IsPaired, Idle, IsLook;
    LastStepsSplit();
    SplitKeepsPairs(BEFORE_PEOPLE, AFTER_PEOPLE, t, l);
  }

  /** Sends to the person go before the person does, so none is left unpaired. */
  lemma SplitKeepsPairs(before: seq<Step>, after: seq<Step>, t: Tables, l: Look)
    requires IsLook(l) && IsPaired(t)
    requires ApprovalPeople !in before && ApprovalPeople !in after
    ensures IsPaired(DoAll(before + ([SendLinks] + ([ApprovalPeople] + after)), t, l))
  {
    hide Do, DoAll, IsPaired, Idle, IsLook;
    var u := DoAll(before, t, l);
    ListKeepsPairs(before, t, l);
    StepKeepsPairs(SendLinks, u, l);
    DoneIsIdle(SendLinks, u, l);
    var v := Do(SendLinks, u, l);
    StepKeepsPairs(ApprovalPeople, v, l);
    ListKeepsPairs(after, Do(ApprovalPeople, v, l), l);
    DoInTurn(before, [SendLinks] + ([ApprovalPeople] + after), t, l);
    DoFirst(SendLinks, [ApprovalPeople] + after, u, l);
    DoFirst(ApprovalPeople, after, v, l);
  }

  lemma AudiencesAgree(t: Tables, l: Look)
    requires OneAudience(t)
    ensures OneAudienceFor(t, l)
  {
    hide HasPeople;
  }

  lemma AudiencesAgreeAfter(t: Tables, l: Look)
    requires OneAudienceFor(t, l) && NoActorIsThem(t, l)
    ensures OneAudience(t)
  {
    hide HasPeople;
  }

  /** A completed erasure keeps every promise: each request goes to a list or to
      someone, never both, and a Forms request to its own source; an address
      is in a request once; and each remaining send of a request to people is
      paired, at its place, with the same person as before, or with the
      stand-in in place of the person erased. */
  lemma ErasureKeepsPromises(db: Db, c: Command, at: int)
    requires IsCommand(c) && c.request !in db.receipts
    requires OneAudience(db.tables) && OncePerRequest(db.tables) && IsPaired(db.tables)
    requires Erase(db, c, at).1.Completed?
    ensures var t, u, l := db.tables, Erase(db, c, at).0.tables, LookOf(db.tables, c);
            && OneAudience(u) && OncePerRequest(u) && IsPaired(u)
            && forall k | k in u.sends && GoesToPeople(u, k.0) ::
                 && k in t.sends && u.sends[k] == t.sends[k] && k in t.people
                 && (u.people[k] == t.people[k] || (u.people[k] == STAND_IN && IsPersons(l, t.people[k])))
  {
    hide Erase, LookOf, OneAudience, OneAudienceFor, OncePerRequest, IsPaired, NoActorIsThem, NoRowButPeople,
      IsCommand, NoTextNamesThem, IsLook, Lessens, IsErased, GoesToPeople, IsPersons;
    var t, u, l := db.tables, Erase(db, c, at).0.tables, LookOf(db.tables, c);
    CommandLooks(t, c);
    AudiencesAgree(t, l);
    CompletedKeeps(db, c, at);
    ReceiptMeansGone(db, c, at);
    AudiencesAgreeAfter(u, l);
    CompletedErases(db, c, at);
    RemainingSends(t, u, l);
  }

  lemma CompletedKeeps(db: Db, c: Command, at: int)
    requires IsCommand(c) && c.request !in db.receipts && IsPaired(db.tables)
    requires Promises(db.tables, LookOf(db.tables, c)) && Erase(db, c, at).1.Completed?
    ensures Promises(Erase(db, c, at).0.tables, LookOf(db.tables, c)) && IsPaired(Erase(db, c, at).0.tables)
  {
    hide DoAll, CountAll, LookOf, MailInFlight, Promises, IsLook, IsCommand, IsPaired, Refused, CanCommit;
    var t, l := db.tables, LookOf(db.tables, c);
    CommandLooks(t, c);
    assert ApprovalPeople !in FIRST_STEPS;
    ListKeeps(FIRST_STEPS, t, l);
    ListKeepsPairs(FIRST_STEPS, t, l);
    ListKeeps(LAST_STEPS, DoAll(FIRST_STEPS, t, l), l);
    LastStepsKeepPairs(DoAll(FIRST_STEPS, t, l), l);
  }

  lemma RemainingSends(t: Tables, u: Tables, l: Look)
    requires IsLook(l) && Lessens(t, u, l) && IsPaired(t) && IsPaired(u)
    ensures forall k | k in u.sends && GoesToPeople(u, k.0) ::
              && k in t.sends && u.sends[k] == t.sends[k] && k in t.people && k in u.people
              && (u.people[k] == t.people[k] || (u.people[k] == STAND_IN && IsPersons(l, t.people[k])))
  {
    hide LessQueue, LessTasks, LessLinks, LessEvents, LessApprovalEvents, LessSourcePeople, LessSuppressions,
      LessReactivations, LessInbox, LessColumns, LessRecords, LessAddresses, LessApprovals, LessSources,
      SameAudiences, IsLook, IsPersons, GoesToPeople, HitsSend;
    LessKeepsAudiences(t, u, l);
    SamePeopleRequests(t, u, l);
  }

  /** Where a send was queued to the person, the stand-in takes their place: in
      each request without one, the first such send stays, at its place; unless
      the stand-in's own address is among the person's, and then it goes. */
  lemma FirstSendKeepsItsPlace(db: Db, c: Command, at: int, k: (Id, nat))
    requires IsCommand(c) && c.request !in db.receipts && Erase(db, c, at).1.Completed?
    requires HitsStandIn(db.tables, LookOf(db.tables, c), k)
    ensures var t, u := db.tables, Erase(db, c, at).0.tables;
            && (k in u.sends <==> DELETED_EMAIL !in Emails(c))
            && (k in u.sends ==> k in u.people && u.people[k] == STAND_IN && k in t.sends && u.sends[k] == t.sends[k])
  {
    hide Erase, IsCommand, HitsStandIn, PeopleLeft, Needles, Emails;
    var t, l := db.tables, LookOf(db.tables, c);
    SendsAreLeft(db, c, at);
    PeopleAreLeft(db, c, at);
    PeopleLeftAre(t, l);
    HitIsTheirs(t, l, k);
  }

  lemma HitIsTheirs(t: Tables, l: Look, k: (Id, nat))
    requires HitsStandIn(t, l, k)
    ensures HitsSend(t, l, k) && k in t.sends && k in t.people && IsPersons(l, t.people[k])
  {
    hide Lower;
  }

  lemma SendsAreLeft(db: Db, c: Command, at: int)
    requires IsCommand(c) && c.request !in db.receipts && Erase(db, c, at).1.Completed?
    ensures Erase(db, c, at).0.tables.sends == SendsLeft(db.tables, LookOf(db.tables, c))
  {
    hide Erase, LookOf, IsCommand, SendsLeft;
    ErasureIsExact(db, c, at);
  }

  // ---- Forms sources -------------------------------------------------------

  /** No call, completed or not, leaves a smaller snapshot in use: a source that
      lost anyone, or names or is owned by the person, is invalidated by every
      call that is not rolled back. */
  lemma SnapshotsStayWhole(db: Db, c: Command, at: int)
    requires IsCommand(c) && SnapshotsHold(db.tables)
    ensures SnapshotsHold(Erase(db, c, at).0.tables)
    ensures c.request !in db.receipts && !Erase(db, c, at).1.RolledBack? ==>
              forall s | s in db.tables.sources
                  && SourceConcerns(db.tables, LookOf(db.tables, c), s, db.tables.sources[s]) ::
                s in Erase(db, c, at).0.tables.sources && Erase(db, c, at).0.tables.sources[s].invalidated
  {
    hide DoAll, CountAll, LookOf, MailInFlight, SourceConcerns, SnapshotsHold, IsCommand, Refused, CanCommit, IsLook;
    if c.request !in db.receipts {
      var t, l := db.tables, LookOf(db.tables, c);
      CommandLooks(t, c);
      SnapshotsAfter(t, l);
    }
  }

  /** After the first statements, and after all. */
  lemma SnapshotsAfter(t: Tables, l: Look)
    requires IsLook(l)
    ensures var first := DoAll(FIRST_STEPS, t, l);
            var last := DoAll(LAST_STEPS, first, l);
            && (SnapshotsHold(t) ==> SnapshotsHold(first) && SnapshotsHold(last))
            && (forall s | s in t.sources && SourceConcerns(t, l, s, t.sources[s]) ::
                  && s in first.sources && first.sources[s].invalidated
                  && s in last.sources && last.sources[s].invalidated)
  {
    hide Do, DoAll, SourceConcerns, Lessens, IsLook, SnapshotsHold;
    var one, first := Do(InvalidateSources, t, l), DoAll(FIRST_STEPS, t, l);
    var last := DoAll(LAST_STEPS, first, l);
    assert FIRST_STEPS == [InvalidateSources] + FIRST_STEPS[1..];
    DoFirst(InvalidateSources, FIRST_STEPS[1..], t, l);
    DoAllLessens(FIRST_STEPS[1..], one, l);
    DoAllLessens(LAST_STEPS, first, l);
    LessensInTurn(one, first, last, l);
    DoLessens(InvalidateSources, t, l);
    LessensInTurn(t, one, first, l);
    LessensInTurn(t, one, last, l);
    InvalidatedFirst(t, first, l);
    InvalidatedFirst(t, last, l);
  }

  lemma InvalidatedFirst(t: Tables, u: Tables, l: Look)
    requires Lessens(Do(InvalidateSources, t, l), u, l) && Lessens(t, u, l)
    ensures forall s | s in t.sources && SourceConcerns(t, l, s, t.sources[s]) ::
            s in u.sources && u.sources[s].invalidated
    ensures SnapshotsHold(t) ==> SnapshotsHold(u)
  {
    hide Do, LessSources, LessSourcePeople, SnapshotsHold, SourceConcerns;
    SourcesOf(InvalidateSources, t, l);
    ConcernedAreInvalidated(t, Do(InvalidateSources, t, l), u, l);
    if SnapshotsHold(t) {
      SnapshotsStay(t, u, l);
    }
  }

  lemma ConcernedAreInvalidated(t: Tables, one: Tables, u: Tables, l: Look)
    requires one.sources == SourcesAfter(InvalidateSources, t, l) && LessSources(one, u, l)
    ensures forall s | s in t.sources && SourceConcerns(t, l, s, t.sources[s]) ::
            s in u.sources && u.sources[s].invalidated
  {
    hide SourceConcerns, Names;
    forall s | s in t.sources && SourceConcerns(t, l, s, t.sources[s])
      ensures s in u.sources && u.sources[s].invalidated
    {
      assert one.sources[s].invalidated;
    }
  }

  lemma SnapshotsStay(t: Tables, u: Tables, l: Look)
    requires SnapshotsHold(t) && LessSources(t, u, l) && LessSourcePeople(t, u, l)
    requires forall s | s in t.sources && SourceConcerns(t, l, s, t.sources[s]) :: u.sources[s].invalidated
    ensures SnapshotsHold(u)
  {
    hide SourceConcerns, Names, LessSourcePeople, PeopleOfSource;
    forall s | s in u.sources && !u.sources[s].invalidated
      ensures |PeopleOfSource(u, s)| == u.sources[s].recipientCount
    {
      assert !SourceConcerns(t, l, s, t.sources[s]);
      UnconcernedKeepsItsPeople(t, u, l, s);
    }
  }

  lemma UnconcernedKeepsItsPeople(t: Tables, u: Tables, l: Look, s: Id)
    requires LessSourcePeople(t, u, l) && s in t.sources && !SourceConcerns(t, l, s, t.sources[s])
    ensures PeopleOfSource(u, s) == PeopleOfSource(t, s)
  {
    hide Names, Lower;
  }
}
