// A completed erasure is a fixpoint: the same person erased again changes
// nothing, but for a stand-in that is theirs.
module ErasureAgain {
  import opened Options
  import opened Text
  import opened Erasure
  import opened ErasureProofs
  import opened ErasureDone
  import opened ErasureExact
  import opened ErasureResults
  import opened ErasureCompletes

  // ---- Nothing more to do --------------------------------------------------

  lemma IdleLists(step: Step, t: Tables, l: Look)
    requires Idle(step, t, l)
    ensures RecipientsAfter(step, t, l) == t.recipients
    ensures MembershipsAfter(step, t, l) == t.memberships
  {
    hide Lower, Names, LinkNames, Alone, CanStandIn, Theirs, MailNames;
  }

  lemma IdleUnsubscribes(step: Step, t: Tables, l: Look)
    requires Idle(step, t, l)
    ensures UnsubscribesAfter(step, t, l) == t.unsubscribes
  {
    hide Lower, Names, LinkNames, Alone, CanStandIn, Theirs, MailNames;
  }

  lemma IdleMail(step: Step, t: Tables, l: Look)
    requires Idle(step, t, l)
    ensures QueueAfter(step, t, l) == t.queue
    ensures EventsAfter(step, t, l) == t.events
  {
    hide Lower, Names, LinkNames, Alone, CanStandIn, Theirs, MailNames;
  }

  lemma IdleSending(step: Step, t: Tables, l: Look)
    requires Idle(step, t, l)
    ensures TasksAfter(step, t, l) == t.tasks
    ensures LinksAfter(step, t, l) == t.links
  {
    hide Lower, Names, LinkNames, Alone, CanStandIn, Theirs, MailNames;
  }

  lemma IdleRequests(step: Step, t: Tables, l: Look)
    requires Idle(step, t, l)
    ensures ApprovalsAfter(step, t, l) == t.approvals
    ensures ApprovalEventsAfter(step, t, l) == t.approvalEvents
  {
    hide Lower, Names, LinkNames, Alone, CanStandIn, Theirs, MailNames;
  }

  lemma IdlePeople(step: Step, t: Tables, l: Look)
    requires Idle(step, t, l)
    ensures PeopleAfter(step, t, l) == t.people
    ensures SendsAfter(step, t, l) == t.sends
  {
    hide Lower, Names, LinkNames, Alone, CanStandIn, Theirs, MailNames;
  }

  lemma IdleForms(step: Step, t: Tables, l: Look)
    requires Idle(step, t, l)
    ensures SourcesAfter(step, t, l) == t.sources
    ensures SourcePeopleAfter(step, t, l) == t.sourcePeople
  {
    hide Lower, Names, LinkNames, Alone, CanStandIn, Theirs, MailNames;
  }

  lemma IdleRecords(step: Step, t: Tables, l: Look)
    requires Idle(step, t, l)
    ensures SensitiveChangesAfter(step, t, l) == t.sensitiveChanges
    ensures ContentViewsAfter(step, t, l) == t.contentViews
  {
    hide Lower, Names, LinkNames, Alone, CanStandIn, Theirs, MailNames;
  }

  lemma IdleVersions(step: Step, t: Tables, l: Look)
    requires Idle(step, t, l)
    ensures VersionsAfter(step, t, l) == t.versions
  {
    hide Lower, Names, LinkNames, Alone, CanStandIn, Theirs, MailNames;
  }

  lemma IdleTraces(step: Step, t: Tables, l: Look)
    requires Idle(step, t, l)
    ensures SuppressionsAfter(step, t, l) == t.suppressions
    ensures RemovalsAfter(step, t, l) == t.removals
  {
    hide Lower, Names, LinkNames, Alone, CanStandIn, Theirs, MailNames;
  }

  lemma IdleRest(step: Step, t: Tables, l: Look)
    requires Idle(step, t, l)
    ensures ReactivationsAfter(step, t, l) == t.reactivations
    ensures InboxAfter(step, t, l) == t.inbox
  {
    hide Lower, Names, LinkNames, Alone, CanStandIn, Theirs, MailNames;
  }

  lemma IdleArchivers(step: Step, t: Tables, l: Look)
    requires Idle(step, t, l)
    ensures TemplateArchiversAfter(step, t, l) == t.templateArchivers
    ensures ListArchiversAfter(step, t, l) == t.listArchivers
  {
    hide Lower, Names, LinkNames, Alone, CanStandIn, Theirs, MailNames;
  }

  lemma IdleDoesNothing(step: Step, t: Tables, l: Look)
    requires Idle(step, t, l)
    ensures Do(step, t, l) == t
  {
    hide Idle, RecipientsAfter, MembershipsAfter, QueueAfter, TasksAfter, LinksAfter, EventsAfter, ApprovalsAfter,
      PeopleAfter, SendsAfter, ApprovalEventsAfter, SourcesAfter, SourcePeopleAfter, VersionsAfter,
      SensitiveChangesAfter, ContentViewsAfter, SuppressionsAfter, RemovalsAfter, UnsubscribesAfter,
      ReactivationsAfter, InboxAfter, TemplateArchiversAfter, ListArchiversAfter;
    IdleLists(step, t, l);
    IdleUnsubscribes(step, t, l);
    IdleMail(step, t, l);
    IdleSending(step, t, l);
    IdleRequests(step, t, l);
    IdlePeople(step, t, l);
    IdleForms(step, t, l);
    IdleVersions(step, t, l);
    IdleRecords(step, t, l);
    IdleTraces(step, t, l);
    IdleRest(step, t, l);
    IdleArchivers(step, t, l);
  }

  lemma MailCountsNothing(step: Step, t: Tables, l: Look)
    requires GroupOf(step) == Mail && Idle(step, t, l)
    ensures Rows(step, t, l) == 0 && StoodIn(step, t, l) == 0
  {
    hide Lower, Names, LinkNames, Alone, CanStandIn, MailNames;
  }

  lemma SendingCountsNothing(step: Step, t: Tables, l: Look)
    requires GroupOf(step) == Sending && Idle(step, t, l)
    ensures Rows(step, t, l) == 0 && StoodIn(step, t, l) == 0
  {
    hide Lower, Names, LinkNames, Alone, CanStandIn, MailNames;
  }

  lemma TracesCountsNothing(step: Step, t: Tables, l: Look)
    requires GroupOf(step) == Traces && Idle(step, t, l)
    ensures Rows(step, t, l) == 0 && StoodIn(step, t, l) == 0
  {
    hide Lower, Names, LinkNames, Alone, CanStandIn, MailNames;
  }

  lemma PeopleCountsNothing(step: Step, t: Tables, l: Look)
    requires GroupOf(step) == People && Idle(step, t, l)
    ensures Rows(step, t, l) == 0 && StoodIn(step, t, l) == 0
  {
    hide Lower, Names, LinkNames, Alone, CanStandIn, MailNames;
  }

  lemma RequestsCountsNothing(step: Step, t: Tables, l: Look)
    requires GroupOf(step) == Requests && Idle(step, t, l)
    ensures Rows(step, t, l) == 0 && StoodIn(step, t, l) == 0
  {
    hide Lower, Names, LinkNames, Alone, CanStandIn, MailNames;
  }

  lemma FormsCountsNothing(step: Step, t: Tables, l: Look)
    requires GroupOf(step) == Forms && Idle(step, t, l)
    ensures Rows(step, t, l) == 0 && StoodIn(step, t, l) == 0
  {
    hide Lower, Names, LinkNames, Alone, CanStandIn, MailNames;
  }

  lemma ActorsCountsNothing(step: Step, t: Tables, l: Look)
    requires GroupOf(step) == Actors && Idle(step, t, l)
    ensures Rows(step, t, l) == 0 && StoodIn(step, t, l) == 0
  {
    hide Lower, Names, LinkNames, Alone, CanStandIn, MailNames;
  }

  lemma RecordsCountsNothing(step: Step, t: Tables, l: Look)
    requires GroupOf(step) == Records && Idle(step, t, l)
    ensures Rows(step, t, l) == 0 && StoodIn(step, t, l) == 0
  {
    hide Lower, Names, LinkNames, Alone, CanStandIn, MailNames;
  }

  lemma ListsCountsNothing(step: Step, t: Tables, l: Look)
    requires GroupOf(step) == Lists && Idle(step, t, l)
    ensures Rows(step, t, l) == 0 && StoodIn(step, t, l) == 0
  {
    hide Lower, Names, LinkNames, Alone, CanStandIn, MailNames;
  }

  lemma IdleCountsNothing(step: Step, t: Tables, l: Look)
    requires Idle(step, t, l)
    ensures Rows(step, t, l) == 0 && StoodIn(step, t, l) == 0
  {
    hide Idle, GroupOf, Rows, StoodIn;
    match GroupOf(step) {
      case Mail => MailCountsNothing(step, t, l);
      case Sending => SendingCountsNothing(step, t, l);
      case Traces => TracesCountsNothing(step, t, l);
      case People => PeopleCountsNothing(step, t, l);
      case Requests => RequestsCountsNothing(step, t, l);
      case Forms => FormsCountsNothing(step, t, l);
      case Actors => ActorsCountsNothing(step, t, l);
      case Records => RecordsCountsNothing(step, t, l);
      case Lists => ListsCountsNothing(step, t, l);
    }
  }

  /** With the same person looked for by fewer needles, nothing comes back. */
  predicate LooksForLess(m: Look, l: Look) {
    m.subject == l.subject && m.emails == l.emails && m.needles <= l.needles
  }

  lemma NamesLess(m: Look, l: Look, text: string)
    requires LooksForLess(m, l) && Names(m, text)
    ensures Names(l, text)
  {
    hide Lower, Contains;
  }

  lemma LinkNamesLess(url: string, m: set<string>, l: set<string>)
    requires m <= l && LinkNames(url, m)
    ensures LinkNames(url, l)
  {
    hide Lower, Contains, Unescape;
  }

  lemma NamesLessAll(m: Look, l: Look)
    requires LooksForLess(m, l)
    ensures forall text | Names(m, text) :: Names(l, text)
    ensures forall url | LinkNames(url, m.needles) :: LinkNames(url, l.needles)
  {
    hide Names, LinkNames;
    forall text | Names(m, text)
      ensures Names(l, text)
    {
      NamesLess(m, l, text);
    }
    forall url | LinkNames(url, m.needles)
      ensures LinkNames(url, l.needles)
    {
      LinkNamesLess(url, m.needles, l.needles);
    }
  }

  lemma MailIdleForLess(step: Step, t: Tables, m: Look, l: Look)
    requires GroupOf(step) == Mail && LooksForLess(m, l) && Idle(step, t, l)
    ensures Idle(step, t, m)
  {
    hide Lower, Names, LinkNames, Alone;
    NamesLessAll(m, l);
    SameTheirs(t, m, l);
  }

  lemma SendingIdleForLess(step: Step, t: Tables, m: Look, l: Look)
    requires GroupOf(step) == Sending && LooksForLess(m, l) && Idle(step, t, l)
    ensures Idle(step, t, m)
  {
    hide Lower, Names, LinkNames, Alone;
    NamesLessAll(m, l);
    SameTheirs(t, m, l);
  }

  lemma TracesIdleForLess(step: Step, t: Tables, m: Look, l: Look)
    requires GroupOf(step) == Traces && LooksForLess(m, l) && Idle(step, t, l)
    ensures Idle(step, t, m)
  {
    hide Lower, Names, LinkNames, Alone;
    NamesLessAll(m, l);
    SameTheirs(t, m, l);
  }

  lemma PeopleIdleForLess(step: Step, t: Tables, m: Look, l: Look)
    requires GroupOf(step) == People && LooksForLess(m, l) && Idle(step, t, l)
    ensures Idle(step, t, m)
  {
    hide Lower, Names, LinkNames, Alone;
    NamesLessAll(m, l);
    SameTheirs(t, m, l);
  }

  lemma RequestsIdleForLess(step: Step, t: Tables, m: Look, l: Look)
    requires GroupOf(step) == Requests && LooksForLess(m, l) && Idle(step, t, l)
    ensures Idle(step, t, m)
  {
    hide Lower, Names, LinkNames, Alone;
    NamesLessAll(m, l);
    SameTheirs(t, m, l);
  }

  lemma FormsIdleForLess(step: Step, t: Tables, m: Look, l: Look)
    requires GroupOf(step) == Forms && LooksForLess(m, l) && Idle(step, t, l)
    ensures Idle(step, t, m)
  {
    hide Lower, Names, LinkNames, Alone;
    NamesLessAll(m, l);
    SameTheirs(t, m, l);
  }

  lemma ActorsIdleForLess(step: Step, t: Tables, m: Look, l: Look)
    requires GroupOf(step) == Actors && LooksForLess(m, l) && Idle(step, t, l)
    ensures Idle(step, t, m)
  {
    hide Lower, Names, LinkNames, Alone;
    NamesLessAll(m, l);
    SameTheirs(t, m, l);
  }

  lemma RecordsIdleForLess(step: Step, t: Tables, m: Look, l: Look)
    requires GroupOf(step) == Records && LooksForLess(m, l) && Idle(step, t, l)
    ensures Idle(step, t, m)
  {
    hide Lower, Names, LinkNames, Alone;
    NamesLessAll(m, l);
    SameTheirs(t, m, l);
  }

  lemma ListsIdleForLess(step: Step, t: Tables, m: Look, l: Look)
    requires GroupOf(step) == Lists && LooksForLess(m, l) && Idle(step, t, l)
    ensures Idle(step, t, m)
  {
    hide Lower, Names, LinkNames, Alone;
    NamesLessAll(m, l);
    SameTheirs(t, m, l);
  }

  lemma IdleForLess(step: Step, t: Tables, m: Look, l: Look)
    requires LooksForLess(m, l) && Idle(step, t, l)
    ensures Idle(step, t, m)
  {
    hide Idle, GroupOf, LooksForLess;
    match GroupOf(step) {
      case Mail => MailIdleForLess(step, t, m, l);
      case Sending => SendingIdleForLess(step, t, m, l);
      case Traces => TracesIdleForLess(step, t, m, l);
      case People => PeopleIdleForLess(step, t, m, l);
      case Requests => RequestsIdleForLess(step, t, m, l);
      case Forms => FormsIdleForLess(step, t, m, l);
      case Actors => ActorsIdleForLess(step, t, m, l);
      case Records => RecordsIdleForLess(step, t, m, l);
      case Lists => ListsIdleForLess(step, t, m, l);
    }
  }

  lemma SameTheirs(t: Tables, m: Look, l: Look)
    requires LooksForLess(m, l)
    ensures forall q: QueueRow :: Theirs(m, q) == Theirs(l, q)
    ensures forall task: Id :: Alone(t, m, task) == Alone(t, l, task)
  {
    hide Lower;
  }

  lemma NoFlightForLess(t: Tables, m: Look, l: Look)
    requires LooksForLess(m, l) && !MailInFlight(t, l)
    ensures !MailInFlight(t, m)
  {
    hide Lower, Names, LinkNames;
    NamesLessAll(m, l);
    SameTheirs(t, m, l);
    forall k | k in t.queue
      ensures !IsInFlight(m, t.queue[k])
    {
      assert !IsInFlight(l, t.queue[k]);
    }
  }

  // ---- No name is looked for any more --------------------------------------

  lemma {:induction false} CollapsedPlain(s: string)
    requires forall i | 0 <= i < |s| && IsBlank(s[i]) :: s[i] == ' ' && (i + 1 < |s| ==> !IsBlank(s[i + 1]))
    ensures Collapsed(s) == s
  {
    if s != "" {
      CollapsedPlain(s[1..]);
      assert s == [s[0]] + s[1..];
    }
  }

  lemma StandInIsNotSearchedFor()
    ensures !IsSearchable(FullName(DELETED_NAME))
  {
    hide Collapsed, Btrim;
    CollapsedPlain(DELETED_NAME);
    assert DELETED_NAME[0] == 'S' && DELETED_NAME[|DELETED_NAME| - 1] == '\U{b1}';
    assert Btrim(DELETED_NAME) == DELETED_NAME;
  }

  /** Once erased, the only name still held can be the stand-in's. */
  lemma NoNameIsHeld(t: Tables, l: Look, name: string)
    requires NoRowButPeople(t, l) && NoActorIsThem(t, l)
    requires forall k | k in t.people && IsPersons(l, t.people[k]) :: t.people[k] == STAND_IN
    requires name != DELETED_NAME
    ensures !IsHeld(t, l.subject, l.emails, name)
  {
    hide Lower;
    assert forall k | k in t.queue :: !Theirs(l, t.queue[k]);
    assert forall k | k in t.recipients :: !IsPersons(l, t.recipients[k]);
  }

  lemma OnlyAddressesAreLookedFor(t: Tables, l: Look)
    requires NoRowButPeople(t, l) && NoActorIsThem(t, l)
    requires forall k | k in t.people && IsPersons(l, t.people[k]) :: t.people[k] == STAND_IN
    ensures Needles(t, l.subject, l.emails) == l.emails
  {
    hide IsHeld, AllNames, FullName, IsSearchable, NoRowButPeople, NoActorIsThem, IsPersons;
    StandInIsNotSearchedFor();
    forall name | name != DELETED_NAME
      ensures !IsHeld(t, l.subject, l.emails, name)
    {
      NoNameIsHeld(t, l, name);
    }
  }

  // ---- The statements again ------------------------------------------------

  lemma {:induction false} IdlesDoNothing(steps: seq<Step>, t: Tables, l: Look, counts: Counts)
    requires forall i | 0 <= i < |steps| :: Idle(steps[i], t, l)
    ensures DoAll(steps, t, l) == t
    ensures forall key :: Get(CountAll(steps, t, l, counts), key) == Get(counts, key)
  {
    hide Idle, Do, Rows, StoodIn;
    if steps != [] {
      IdleDoesNothing(steps[0], t, l);
      IdleCountsNothing(steps[0], t, l);
      IdlesDoNothing(steps[1..], t, l, Counted(steps[0], t, l, counts));
    }
  }

  lemma {:induction false} CountInTurn(a: seq<Step>, b: seq<Step>, t: Tables, l: Look, counts: Counts)
    ensures CountAll(a + b, t, l, counts) == CountAll(b, DoAll(a, t, l), l, CountAll(a, t, l, counts))
  {
    hide Do, Counted;
    if a == [] {
      assert a + b == b;
    } else {
      assert (a + b)[1..] == a[1..] + b;
      CountInTurn(a[1..], b, Do(a[0], t, l), l, Counted(a[0], t, l, counts));
    }
  }

  /** Every request that still has the person has only a stand-in of theirs. */
  predicate OnlyStandInsAreTheirs(t: Tables, l: Look) {
    forall k | k in t.people && IsPersons(l, t.people[k]) ::
      && t.people[k] == STAND_IN && k.1 == 1 && k.0 in t.approvals && t.approvals[k.0].list.None?
      && forall o | o in t.people && o.0 == k.0 :: o == k
  }

  lemma OnlyStandInsAreLeft(t: Tables, l: Look)
    requires IsLook(l)
    ensures var left := PeopleLeft(t, l);
            forall k | k in left && IsPersons(l, left[k]) ::
              && left[k] == STAND_IN && k.1 == 1 && k.0 in t.approvals && t.approvals[k.0].list.None?
              && forall o | o in left && o.0 == k.0 :: o == k
  {
    hide IsLook, PeopleLeft, LeftEmpty, Emptied, HitsStandIn, Lower, HasPeople, IsEmptied;
    PersonsLeft(t, l);
    PeopleLeftAre(t, l);
    var left := PeopleLeft(t, l);
    forall k | k in left && IsPersons(l, left[k])
      ensures k.0 in t.approvals && t.approvals[k.0].list.None?
      ensures forall o | o in left && o.0 == k.0 :: o == k
    {
      assert GoesToThemAlone(t, l, k.0);
      NoOneStandsIn(t, l);
      EmptiedIs(t, l);
      forall o | o in left && o.0 == k.0
        ensures o == k
      {
        if o !in LeftEmpty(t, l) {
          LeavesNoOne(t, l, o);
        }
      }
    }
  }

  lemma LeavesNoOne(t: Tables, l: Look, k: (Id, nat))
    requires TakesStandIn(l) && IsEmptied(t, l, k.0) && k !in LeftEmpty(t, l)
    ensures k !in PeopleLeft(t, l)
  {
    hide PeopleLeft, LeftEmpty, HitsStandIn, IsEmptied, Lower;
    PeopleLeftAre(t, l);
    if k in t.people {
      AllAreTheirs(t, l, k);
    }
  }

  lemma AllAreTheirs(t: Tables, l: Look, k: (Id, nat))
    requires IsEmptied(t, l, k.0) && k in t.people
    ensures IsPersons(l, t.people[k])
  {
    hide Lower;
  }

  lemma StandInsAreIdle(t: Tables, l: Look)
    requires OnlyStandInsAreTheirs(t, l)
    ensures Idle(StandIns, t, l)
  {
    hide CanStandIn, OnlyStandInsAreTheirs;
    forall k | k in t.people
      ensures !CanStandIn(t, l, k)
    {
      NoneCanStandIn(t, l, k);
    }
    StandInsIdle(t, l);
  }

  lemma NoneCanStandIn(t: Tables, l: Look, k: (Id, nat))
    requires OnlyStandInsAreTheirs(t, l)
    ensures !CanStandIn(t, l, k)
  {
    hide Lower;
    DeletedEmailIsLower();
  }

  lemma DeletedEmailIsLower()
    ensures Lower(DELETED_EMAIL) == DELETED_EMAIL
  {
  }

  /** Put in again at the same places, the stand-ins change nothing. */
  lemma StandInsComeBack(t: Tables, v: Tables, l: Look)
    requires OnlyStandInsAreTheirs(t, l) && v.people == t.people && v.approvals == t.approvals
    ensures PeopleAfter(ApprovalPeople, v, l) == t.people
  {
    hide Emptied, PeopleAfter, Lower;
    EmptiedIs(v, l);
    PeopleAfterOf(v, l);
    forall k | k in v.people && IsPersons(l, v.people[k])
      ensures k in Emptied(v, l)
    {
      AloneIsEmptied(v, l, k);
    }
    forall k | k in Emptied(v, l)
      ensures k in v.people && IsPersons(l, v.people[k])
    {
      EmptiedIsAlone(v, l, k);
    }
    assert PeopleAfter(ApprovalPeople, v, l).Keys == t.people.Keys;
  }

  lemma AloneIsEmptied(t: Tables, l: Look, k: (Id, nat))
    requires OnlyStandInsAreTheirs(t, l) && k in t.people && IsPersons(l, t.people[k])
    ensures k.1 == 1 && GoesToThemAlone(t, l, k.0)
  {
    hide Lower;
  }

  lemma EmptiedIsAlone(t: Tables, l: Look, k: (Id, nat))
    requires OnlyStandInsAreTheirs(t, l) && k.1 == 1 && GoesToThemAlone(t, l, k.0)
    ensures k in t.people && IsPersons(l, t.people[k])
  {
    hide Lower;
    var o :| o in t.people && o.0 == k.0;
    AllAreTheirs(t, l, o);
    assert o.1 == 1;
    assert o == k;
  }

  lemma OnlyPeopleChange(t: Tables, l: Look)
    ensures Do(ApprovalPeople, t, l) == t.(people := PeopleAfter(ApprovalPeople, t, l))
  {
    hide PeopleAfter;
  }

  lemma OnlySendsChange(t: Tables, l: Look)
    ensures Do(SendLinks, t, l) == t.(sends := SendsAfter(SendLinks, t, l))
  {
    hide SendsAfter;
  }

  /** The statements after the people of requests. */
  predicate IsLast(step: Step) {
    step == Suppressions || step == Unsubscribes || step == OwnMail || step == Memberships || step == Recipients
  }

  lemma IdleWithoutSends(step: Step, t: Tables, v: Tables, l: Look)
    requires IsLast(step) && v == t.(sends := v.sends) && Idle(step, t, l)
    ensures Idle(step, v, l)
  {
    hide Idle;
    match step {
      case Suppressions => SuppressionsStayIdle(t, v, l);
      case Unsubscribes => UnsubscribesStayIdle(t, v, l);
      case OwnMail => OwnMailStaysIdle(t, v, l);
      case Memberships => MembershipsStayIdle(t, v, l);
      case Recipients => RecipientsStayIdle(t, v, l);
    }
  }

  lemma SuppressionsStayIdle(t: Tables, v: Tables, l: Look)
    requires v.suppressions == t.suppressions && v.queue == t.queue && Idle(Suppressions, t, l)
    ensures Idle(Suppressions, v, l)
  {
    hide Theirs;
  }

  lemma UnsubscribesStayIdle(t: Tables, v: Tables, l: Look)
    requires v.unsubscribes == t.unsubscribes && Idle(Unsubscribes, t, l)
    ensures Idle(Unsubscribes, v, l)
  {
    hide Idle;
    UnsubscribesIdle(t, l);
    UnsubscribesIdle(v, l);
  }

  predicate KeepsOf(unsubscribes: set<(string, string)>, emails: set<string>) {
    forall u | u in unsubscribes :: u.0 !in emails
  }

  lemma UnsubscribesIdle(t: Tables, l: Look)
    ensures Idle(Unsubscribes, t, l) <==> KeepsOf(t.unsubscribes, l.emails)
  {
    hide Lower, Names, Theirs, Alone, LinkNames, MailNames, CanStandIn;
  }

  lemma OwnMailStaysIdle(t: Tables, v: Tables, l: Look)
    requires v.queue == t.queue && Idle(OwnMail, t, l)
    ensures Idle(OwnMail, v, l)
  {
    hide Theirs;
  }

  lemma MembershipsStayIdle(t: Tables, v: Tables, l: Look)
    requires v.memberships == t.memberships && v.recipients == t.recipients && Idle(Memberships, t, l)
    ensures Idle(Memberships, v, l)
  {
    hide Lower;
  }

  lemma RecipientsStayIdle(t: Tables, v: Tables, l: Look)
    requires v.recipients == t.recipients && Idle(Recipients, t, l)
    ensures Idle(Recipients, v, l)
  {
    hide IsPersons;
  }

  const BEFORE_SENDS := LAST_STEPS[..11]
  const AFTER_SENDS := LAST_STEPS[13..]

  lemma LastStepsAre()
    ensures LAST_STEPS == BEFORE_SENDS + ([SendLinks, ApprovalPeople] + AFTER_SENDS)
  {
    assert LAST_STEPS[11..13] == [SendLinks, ApprovalPeople];
    assert LAST_STEPS == LAST_STEPS[..11] + (LAST_STEPS[11..13] + LAST_STEPS[13..]);
  }

  lemma BeforeSends()
    ensures forall i | 0 <= i < |BEFORE_SENDS| :: GroupOf(BEFORE_SENDS[i]) != People || BEFORE_SENDS[i] == StandIns
  {
  }

  lemma AfterSends()
    ensures forall i | 0 <= i < |AFTER_SENDS| :: IsLast(AFTER_SENDS[i]) && GroupOf(AFTER_SENDS[i]) != People
  {
  }

  lemma FirstStepsLeavePeople()
    ensures forall i | 0 <= i < |FIRST_STEPS| :: GroupOf(FIRST_STEPS[i]) != People
  {
  }

  /** What the last statements do again: sends at a stand-in's place go, and the
      stand-ins are put in again. */
  lemma LastStepsAgain(t: Tables, l: Look, counts: Counts)
    requires OnlyStandInsAreTheirs(t, l) && forall step | GroupOf(step) != People || step == StandIns ::
             Idle(step, t, l)
    ensures DoAll(LAST_STEPS, t, l) == t.(sends := SendsAfter(SendLinks, t, l))
    ensures Get(CountAll(LAST_STEPS, t, l, counts), PeopleRemoved) == Get(counts, PeopleRemoved)
            + Rows(ApprovalPeople, t, l)
  {
    hide Idle, Do, DoAll, CountAll, Counted, OnlyStandInsAreTheirs, SendsAfter, PeopleAfter, Rows, GroupOf;
    LastStepsAre();
    BeforeSends();
    AfterSends();
    MiddleAgain(BEFORE_SENDS, AFTER_SENDS, t, l, counts);
  }

  lemma MiddleAgain(before: seq<Step>, after: seq<Step>, t: Tables, l: Look, counts: Counts)
    requires OnlyStandInsAreTheirs(t, l)
    requires forall i | 0 <= i < |before| :: Idle(before[i], t, l)
    requires forall i | 0 <= i < |after| :: IsLast(after[i]) && Idle(after[i], t, l)
    ensures var steps := before + ([SendLinks, ApprovalPeople] + after);
            && DoAll(steps, t, l) == t.(sends := SendsAfter(SendLinks, t, l))
            && Get(CountAll(steps, t, l, counts), PeopleRemoved) == Get(counts, PeopleRemoved)
               + Rows(ApprovalPeople, t, l)
  {
    hide Idle, Do, DoAll, CountAll, Counted, OnlyStandInsAreTheirs, SendsAfter, PeopleAfter, Rows, GroupOf;
    IdlesDoNothing(before, t, l, counts);
    var middle := [SendLinks, ApprovalPeople];
    DoInTurn(before, middle + after, t, l);
    CountInTurn(before, middle + after, t, l, counts);
    var counted := CountAll(before, t, l, counts);
    DoInTurn(middle, after, t, l);
    CountInTurn(middle, after, t, l, counted);
    SendsAndStandInsAgain(t, l, counted);
    var v := t.(sends := SendsAfter(SendLinks, t, l));
    forall i | 0 <= i < |after|
      ensures Idle(after[i], v, l)
    {
      IdleWithoutSends(after[i], t, v, l);
    }
    IdlesDoNothing(after, v, l, CountAll(middle, t, l, counted));
  }

  lemma CountFirst(step: Step, steps: seq<Step>, t: Tables, l: Look, counts: Counts)
    ensures CountAll([step] + steps, t, l, counts) == CountAll(steps, Do(step, t, l), l, Counted(step, t, l, counts))
  {
    hide Do, Counted;
    assert ([step] + steps)[1..] == steps;
  }

  lemma TwoInTurn(a: Step, b: Step, t: Tables, l: Look, counts: Counts)
    ensures DoAll([a, b], t, l) == Do(b, Do(a, t, l), l)
    ensures CountAll([a, b], t, l, counts) == Counted(b, Do(a, t, l), l, Counted(a, t, l, counts))
  {
    hide Do, Counted;
    assert [a, b] == [a] + [b] && [b] == [b] + [];
    DoFirst(a, [b], t, l);
    DoFirst(b, [], Do(a, t, l), l);
    CountFirst(a, [b], t, l, counts);
    CountFirst(b, [], Do(a, t, l), l, Counted(a, t, l, counts));
  }

  lemma PeopleCounted(t: Tables, v: Tables, l: Look, counts: Counts)
    ensures Get(Counted(ApprovalPeople, v, l, Counted(SendLinks, t, l, counts)), PeopleRemoved)
            == Get(counts, PeopleRemoved) + Rows(ApprovalPeople, v, l)
  {
    hide Rows, StoodIn, WithMore, CountOf, Get;
    PeopleCountAs();
    var sends := WithMore(counts, SendLinksDeleted, Rows(SendLinks, t, l));
    More(counts, SendLinksDeleted, Rows(SendLinks, t, l));
    More(sends, Placeholders, StoodIn(SendLinks, t, l));
    var before := WithMore(sends, Placeholders, StoodIn(SendLinks, t, l));
    More(before, PeopleRemoved, Rows(ApprovalPeople, v, l));
    More(WithMore(before, PeopleRemoved, Rows(ApprovalPeople, v, l)), Placeholders, StoodIn(ApprovalPeople, v, l));
  }

  lemma PeopleCountAs()
    ensures CountOf(SendLinks) == Some(SendLinksDeleted) && CountOf(ApprovalPeople) == Some(PeopleRemoved)
  {
  }

  lemma More(counts: Counts, key: CountKey, n: nat)
    ensures forall k :: Get(WithMore(counts, key, n), k) == Get(counts, k) + if k == key then n else 0
  {
  }

  lemma SendsAndStandInsAgain(t: Tables, l: Look, counts: Counts)
    requires OnlyStandInsAreTheirs(t, l)
    ensures DoAll([SendLinks, ApprovalPeople], t, l) == t.(sends := SendsAfter(SendLinks, t, l))
    ensures Get(CountAll([SendLinks, ApprovalPeople], t, l, counts), PeopleRemoved)
            == Get(counts, PeopleRemoved) + Rows(ApprovalPeople, t, l)
  {
    hide Do, DoAll, CountAll, Counted, OnlyStandInsAreTheirs, SendsAfter, PeopleAfter, Rows;
    var v := t.(sends := SendsAfter(SendLinks, t, l));
    OnlySendsChange(t, l);
    OnlyPeopleChange(v, l);
    StandInsComeBack(t, v, l);
    RowsOfPeople(t, v, l);
    TwoInTurn(SendLinks, ApprovalPeople, t, l, counts);
    PeopleCounted(t, v, l, counts);
  }

  lemma RowsOfPeople(t: Tables, v: Tables, l: Look)
    requires v.people == t.people
    ensures Rows(ApprovalPeople, v, l) == Rows(ApprovalPeople, t, l)
    ensures Rows(ApprovalPeople, t, l) > 0 <==> !NoPersonIsTheirs(t, l)
  {
    hide Lower;
    var gone := set k | k in t.people && Lower(t.people[k].email) in l.emails;
    assert Rows(ApprovalPeople, t, l) == |gone|;
    if k :| k in t.people && IsPersons(l, t.people[k]) {
      assert k in gone;
    }
  }

  predicate CountsNothing(counts: Counts) {
    forall key: CountKey :: Get(counts, key) == 0
  }

  lemma CountsSomething(counts: Counts, key: CountKey)
    requires Get(counts, key) > 0
    ensures !CountsNothing(counts)
  {
  }

  /** Erased again with what only it would look for, tables already erased. */
  lemma AgainOn(t: Tables, l: Look, m: Look)
    requires IsErased(t, l) && OnlyStandInsAreTheirs(t, l) && LooksForLess(m, l)
    requires TakesStandIn(l) || NoPersonIsTheirs(t, l)
    ensures DoAll(FIRST_STEPS, t, m) == t && !MailInFlight(t, m)
    ensures DoAll(LAST_STEPS, t, m) == t.(sends := SendsAfter(SendLinks, t, m))
    ensures var counts := CountAll(LAST_STEPS, t, m, CountAll(FIRST_STEPS, t, m, map[]));
            CountsNothing(counts) <==> NoPersonIsTheirs(t, l)
  {
    hide Idle, DoAll, CountAll, MailInFlight, OnlyStandInsAreTheirs, SendsAfter, Rows, GroupOf;
    FirstStepsLeavePeople();
    assert OnlyStandInsAreTheirs(t, m) && (NoPersonIsTheirs(t, m) <==> NoPersonIsTheirs(t, l)) by {
      SamePersons(t, m, l);
    }
    NoFlightForLess(t, m, l);
    StandInsAreIdle(t, m);
    forall step | GroupOf(step) != People
      ensures Idle(step, t, m)
    {
      IdleForLess(step, t, m, l);
    }
    IdlesDoNothing(FIRST_STEPS, t, m, map[]);
    var counts := CountAll(FIRST_STEPS, t, m, map[]);
    LastStepsAgain(t, m, counts);
    RowsOfPeople(t, t, m);
    if NoPersonIsTheirs(t, l) {
      PeopleAreIdle(t, m);
      IdlesDoNothing(LAST_STEPS, t, m, counts);
    } else {
      CountsSomething(CountAll(LAST_STEPS, t, m, counts), PeopleRemoved);
    }
  }

  /** And the database refuses none of it. */
  lemma AgainIsTaken(t: Tables, m: Look)
    requires IsLook(m) && Sound(t)
    requires DoAll(FIRST_STEPS, t, m) == t && DoAll(LAST_STEPS, t, m) == t.(sends := SendsAfter(SendLinks, t, m))
    ensures !Refused(FIRST_STEPS, t, m) && !Refused(LAST_STEPS, t, m) && CanCommit(DoAll(LAST_STEPS, t, m))
  {
    hide DoAll, Refused, IsLook, NewsOnce, OncePerRequest, SendsAfter, CanCommit;
    MailSplits();
    OthersAreNotRefused(FIRST_STEPS, t, m);
    LastStepsRefused(t, m);
    SameQueueOnce(t, DoAll(LAST_STEPS, t, m));
    SameCommit(t, DoAll(LAST_STEPS, t, m));
  }

  lemma SameCommit(t: Tables, u: Tables)
    requires u == t.(sends := u.sends)
    ensures CanCommit(u) == CanCommit(t)
  {
    assert forall a :: HasPeople(u, a) == HasPeople(t, a);
    assert forall s: Id :: PeopleOfSource(u, s) == PeopleOfSource(t, s);
  }

  lemma LessIsLook(m: Look, l: Look)
    requires LooksForLess(m, l) && IsLook(l)
    ensures IsLook(m)
  {
    hide IsNeedle;
  }

  lemma SamePersons(t: Tables, m: Look, l: Look)
    requires m.emails == l.emails
    ensures OnlyStandInsAreTheirs(t, m) <==> OnlyStandInsAreTheirs(t, l)
    ensures NoPersonIsTheirs(t, m) <==> NoPersonIsTheirs(t, l)
  {
    hide Lower;
  }

  lemma PeopleAreIdle(t: Tables, l: Look)
    requires NoPersonIsTheirs(t, l)
    ensures forall step | GroupOf(step) == People :: Idle(step, t, l)
  {
    hide Lower, Names;
  }

  /** A send at a place where the person still is. */
  predicate IsTheirSend(t: Tables, l: Look, k: (Id, nat)) {
    k in t.people && IsPersons(l, t.people[k])
  }

  lemma SendsAgain(t: Tables, l: Look)
    ensures forall k :: k in SendsAfter(SendLinks, t, l) <==> k in t.sends && !IsTheirSend(t, l, k)
    ensures forall k | k in SendsAfter(SendLinks, t, l) :: SendsAfter(SendLinks, t, l)[k] == t.sends[k]
  {
    hide Lower;
  }

  /** Tables an erasure of the person has left. */
  ghost predicate IsLeft(t: Tables, l: Look) {
    && IsErased(t, l) && OnlyStandInsAreTheirs(t, l) && NoRowButPeople(t, l) && NoActorIsThem(t, l)
    && (TakesStandIn(l) || NoPersonIsTheirs(t, l)) && l.emails <= l.needles
    && (forall k | k in t.people && IsPersons(l, t.people[k]) :: t.people[k] == STAND_IN)
  }

  /** What another call for the person may change: its own receipt, and a send at
      the place of a stand-in that is theirs. */
  ghost predicate ChangesOnlySends(before: Db, after: Db, c: Command, receipt: Receipt, l: Look) {
    && after.receipts == before.receipts[c.request := receipt]
    && after.tables == before.tables.(sends := after.tables.sends)
    && (forall k :: k in after.tables.sends <==> k in before.tables.sends && !IsTheirSend(before.tables, l, k))
    && (forall k | k in after.tables.sends :: after.tables.sends[k] == before.tables.sends[k])
    && (NoPersonIsTheirs(before.tables, l) ==> after.tables == before.tables)
  }

  /** What is looked for once more: the addresses alone. */
  lemma LooksAgain(t: Tables, l: Look, again: Command)
    requires IsLook(l) && IsLeft(t, l) && again.subject == l.subject && Emails(again) == l.emails
    ensures var m := LookOf(t, again); LooksForLess(m, l) && IsLook(m) && m.emails == l.emails
  {
    hide IsLook, IsErased, OnlyStandInsAreTheirs, NoRowButPeople, NoActorIsThem, IsPersons, Emails, Needles,
      NoPersonIsTheirs, LooksForLess, TakesStandIn;
    var m := LookOf(t, again);
    OnlyAddressesAreLookedFor(t, l);
    SameLooks(m, l);
    LessIsLook(m, l);
  }

  lemma AgainOnTables(erased: Db, again: Command, later: int, l: Look)
    requires again.request !in erased.receipts && again.subject == l.subject && Emails(again) == l.emails
    requires IsLook(l) && IsLeft(erased.tables, l) && Sound(erased.tables)
    ensures var (after, second) := Erase(erased, again, later);
            && second.Completed? && ChangesOnlySends(erased, after, again, second.receipt, l)
            && (CountsNothing(second.receipt.counts) <==> NoPersonIsTheirs(erased.tables, l))
  {
    hide Erase, IsErased, IsLook, OnlyStandInsAreTheirs, NoRowButPeople, NoActorIsThem, Sound, IsPersons, LookOf,
      NoPersonIsTheirs, CountsNothing, IsTheirSend, LooksForLess, DoAll, CountAll, SendsAfter, Refused, MailInFlight,
      CanCommit;
    var t, m := erased.tables, LookOf(erased.tables, again);
    LooksAgain(t, l, again);
    AgainOn(t, l, m);
    AgainIsTaken(t, m);
    ErasesAs(erased, again, later);
    SendsAgain(t, m);
    SameSends(t, m, l);
    assert NoPersonIsTheirs(t, l) ==> SendsAfter(SendLinks, t, m) == t.sends;
  }

  /** Erasure is a fixpoint: after a completed one, the same request gives the
      same receipt and changes nothing; and another request for the same person
      completes and changes nothing but its own receipt and a send at a
      stand-in's place that is theirs; it counts nothing exactly when no
      stand-in left is theirs. */
  lemma ErasingAgain(db: Db, c: Command, at: int, again: Command, later: int)
    requires IsCommand(c) && c.request !in db.receipts
    requires Erase(db, c, at).1.Completed?
    requires again.subject == c.subject && Emails(again) == Emails(c)
    ensures var (erased, answer) := Erase(db, c, at);
            && Erase(erased, c, later) == (erased, answer)
            && (again.request !in erased.receipts ==>
                var l := LookOf(db.tables, c);
                var (after, second) := Erase(erased, again, later);
                && second.Completed? && ChangesOnlySends(erased, after, again, second.receipt, l)
                && (CountsNothing(second.receipt.counts) <==> NoPersonIsTheirs(erased.tables, l)))
  {
    hide Erase, IsLook, IsCommand, IsLeft, Sound, Emails, Needles, NoPersonIsTheirs, CountsNothing, ChangesOnlySends;
    var erased := Erase(db, c, at).0;
    ReceiptIsKept(db, c, at, later);
    CommandLooks(db.tables, c);
    ErasedTwice(db, c, at);
    CompletedIsSound(db, c, at);
    if again.request !in erased.receipts {
      AgainOnTables(erased, again, later, LookOf(db.tables, c));
    }
  }

  lemma ReceiptIsKept(db: Db, c: Command, at: int, later: int)
    requires c.request !in db.receipts && Erase(db, c, at).1.Completed?
    ensures Erase(Erase(db, c, at).0, c, later) == Erase(db, c, at)
  {
    hide DoAll, CountAll, LookOf, MailInFlight, Refused, CanCommit;
  }

  lemma SameLooks(m: Look, l: Look)
    requires m.subject == l.subject && m.emails == l.emails && m.needles == l.emails && l.emails <= l.needles
    ensures LooksForLess(m, l)
  {
  }

  /** What a call that nothing refuses does. */
  lemma ErasesAs(db: Db, c: Command, at: int)
    requires c.request !in db.receipts
    requires var l := LookOf(db.tables, c);
             var first := DoAll(FIRST_STEPS, db.tables, l);
             && !Refused(FIRST_STEPS, db.tables, l) && !MailInFlight(first, l) && !Refused(LAST_STEPS, first, l)
             && CanCommit(DoAll(LAST_STEPS, first, l))
    ensures var l := LookOf(db.tables, c);
            var first := DoAll(FIRST_STEPS, db.tables, l);
            var (after, answer) := Erase(db, c, at);
            && answer.Completed? && after == Db(DoAll(LAST_STEPS, first, l), db.receipts[c.request := answer.receipt])
            && answer.receipt.counts == CountAll(LAST_STEPS, first, l, CountAll(FIRST_STEPS, db.tables, l, map[]))
  {
    hide DoAll, CountAll, LookOf, MailInFlight, Refused, CanCommit;
  }

  lemma SameSends(t: Tables, m: Look, l: Look)
    requires m.emails == l.emails
    ensures forall k :: IsTheirSend(t, m, k) <==> IsTheirSend(t, l, k)
    ensures NoPersonIsTheirs(t, l) ==> forall k :: !IsTheirSend(t, l, k)
  {
    hide Lower;
  }

  lemma ErasedTwice(db: Db, c: Command, at: int)
    requires IsCommand(c) && c.request !in db.receipts && Erase(db, c, at).1.Completed?
    ensures IsLeft(Erase(db, c, at).0.tables, LookOf(db.tables, c))
  {
    hide Erase, IsErased, Lessens, IsLook, IsCommand, NoRowButPeople, NoActorIsThem, NoTextNamesThem,
      GoesToThemAlone, IsPersons, PeopleLeft, Emails, IsHeld, AllNames, FullName, IsSearchable, LessApproval;
    var t, u, l := db.tables, Erase(db, c, at).0.tables, LookOf(db.tables, c);
    CommandLooks(t, c);
    CompletedErases(db, c, at);
    ReceiptMeansGone(db, c, at);
    PeopleAreLeft(db, c, at);
    OnlyStandInsAreLeft(t, l);
    SameListsAfter(t, u, l);
  }

  lemma SameListsAfter(t: Tables, u: Tables, l: Look)
    requires Lessens(t, u, l)
    ensures u.approvals.Keys == t.approvals.Keys && forall a | a in t.approvals ::
            u.approvals[a].list == t.approvals[a].list
  {
    hide LessQueue, LessTasks, LessLinks, LessEvents, LessPeople, LessSends, LessApprovalEvents, LessSources,
      LessSourcePeople, LessSuppressions, LessReactivations, LessInbox, LessColumns, LessRecords, LessAddresses;
  }
}
