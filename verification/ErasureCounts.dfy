// What a receipt's counts say: the rows an erasure deleted, the links it
// emptied, and who left and joined the people of requests.
module ErasureCounts {
  import opened Options
  import opened Text
  import opened Erasure
  import opened ErasureProofs

  // ---- The people of requests ----------------------------------------------

  lemma SizeOfMap<K, V>(m: map<K, V>)
    ensures |m| == |m.Keys|
  {
  }

  function RemovedBy(step: Step, t: Tables, l: Look): (n: nat) {
    if step == StandIns || step == ApprovalPeople then Rows(step, t, l) else 0
  }

  lemma StandInsConserve(t: Tables, l: Look)
    ensures |PeopleAfter(StandIns, t, l)| == |t.people|
  {
    hide HitsStandIn;
    var u := PeopleAfter(StandIns, t, l);
    assert u.Keys == t.people.Keys;
    SizeOfMap(u);
    SizeOfMap(t.people);
  }

  function Removed(t: Tables, l: Look): (r: set<(Id, nat)>) {
    set k | k in t.people && Lower(t.people[k].email) in l.emails
  }

  lemma RowsRemoved(t: Tables, l: Look)
    ensures Rows(ApprovalPeople, t, l) == |Removed(t, l)| && Removed(t, l) <= t.people.Keys
  {
    hide Lower;
  }

  lemma KeysAfter(t: Tables, l: Look)
    ensures PeopleAfter(ApprovalPeople, t, l).Keys == (t.people.Keys - Removed(t, l)) + Emptied(t, l)
    ensures t.people.Keys - Removed(t, l) !! Emptied(t, l)
  {
    hide Lower, Emptied;
    forall k | k in Emptied(t, l) && k in t.people
      ensures k in Removed(t, l)
    {
      EmptiedHoldsNoOneElse(t, l, k);
    }
  }

  lemma ApprovalPeopleConserve(t: Tables, l: Look)
    ensures |PeopleAfter(ApprovalPeople, t, l)| + Rows(ApprovalPeople, t, l) == |t.people| + |Emptied(t, l)|
  {
    hide Removed, Emptied, Rows, PeopleAfter;
    RowsRemoved(t, l);
    KeysAfter(t, l);
    SizeOfMap(PeopleAfter(ApprovalPeople, t, l));
    SizeOfMap(t.people);
  }

  lemma EmptiedHoldsNoOneElse(t: Tables, l: Look, k: (Id, nat))
    requires k in Emptied(t, l) && k in t.people
    ensures Lower(t.people[k].email) in l.emails
  {
    hide Lower;
  }

  /** Each statement removes and puts in as many people as it counts. */
  lemma PeopleConserved(step: Step, t: Tables, l: Look)
    ensures |Do(step, t, l).people| + RemovedBy(step, t, l) == |t.people| + StoodIn(step, t, l)
  {
    hide Do, Rows, Emptied, PeopleAfter;
    PeopleOf(step, t, l);
    if step == StandIns {
      StandInsConserve(t, l);
    } else if step == ApprovalPeople {
      ApprovalPeopleConserve(t, l);
    } else {
      assert PeopleAfter(step, t, l) == t.people by {
        NoPeopleTouched(step, t, l);
      }
    }
  }

  lemma CountedPeople(step: Step, t: Tables, l: Look, counts: Counts)
    ensures Get(Counted(step, t, l, counts), PeopleRemoved) == Get(counts, PeopleRemoved) + RemovedBy(step, t, l)
    ensures Get(Counted(step, t, l, counts), Placeholders) == Get(counts, Placeholders) + StoodIn(step, t, l)
  {
    hide Rows, StoodIn, CountOf, RemovedBy;
    CountedAsPeople(step, t, l);
  }

  lemma CountedAsPeople(step: Step, t: Tables, l: Look)
    ensures RemovedBy(step, t, l) == if CountOf(step) == Some(PeopleRemoved) then Rows(step, t, l) else 0
    ensures CountOf(step) != Some(Placeholders)
  {
    hide Rows;
  }

  lemma {:induction false} PeopleConservedInTurn(steps: seq<Step>, t: Tables, l: Look, counts: Counts)
    ensures var after := CountAll(steps, t, l, counts);
            |DoAll(steps, t, l).people| + Get(after, PeopleRemoved) + Get(counts, Placeholders)
            == |t.people| + Get(counts, PeopleRemoved) + Get(after, Placeholders)
  {
    hide Do, Counted, RemovedBy, StoodIn;
    if steps != [] {
      PeopleConserved(steps[0], t, l);
      CountedPeople(steps[0], t, l, counts);
      PeopleConservedInTurn(steps[1..], Do(steps[0], t, l), l, Counted(steps[0], t, l, counts));
    }
  }

  /** The receipt's counts add up: the people of requests after are those
      before, less the removed, plus the stand-ins. */
  lemma PeopleAddUp(db: Db, c: Command, at: int)
    requires c.request !in db.receipts && Erase(db, c, at).1.Completed?
    ensures var (after, answer) := Erase(db, c, at);
            |after.tables.people| + Get(answer.receipt.counts, PeopleRemoved)
            == |db.tables.people| + Get(answer.receipt.counts, Placeholders)
  {
    hide DoAll, CountAll, LookOf, MailInFlight, Refused, CanCommit;
    var l := LookOf(db.tables, c);
    var first := DoAll(FIRST_STEPS, db.tables, l);
    PeopleConservedInTurn(FIRST_STEPS, db.tables, l, map[]);
    PeopleConservedInTurn(LAST_STEPS, first, l, CountAll(FIRST_STEPS, db.tables, l, map[]));
  }

  // ---- Rows deleted --------------------------------------------------------

  /** How many rows there are of what a count counts the deletions of; for
      links, how many have their address. */
  function Held(t: Tables, key: CountKey): (n: nat) {
    match key
    case RecipientsDeleted => |t.recipients|
    case MembershipsDeleted => |t.memberships|
    case QueueRowsDeleted => |t.queue|
    case SendLinksDeleted => |t.sends|
    case EventsDeleted => |t.events|
    case SuppressionsDeleted => |t.suppressions|
    case UnsubscribesDeleted => |t.unsubscribes|
    case SourcePeopleRemoved => |t.sourcePeople|
    case LinksCleared => |Addressed(t)|
    case _ => 0
  }

  function Addressed(t: Tables): (r: set<Id>) {
    set k | k in t.links && t.links[k].url.Some?
  }

  /** The statement whose rows a count counts. */
  function StepOf(key: CountKey): (r: Option<Step>) {
    match key
    case RecipientsDeleted => Some(Recipients)
    case MembershipsDeleted => Some(Memberships)
    case QueueRowsDeleted => Some(QueuedRows)
    case SendLinksDeleted => Some(SendLinks)
    case EventsDeleted => Some(DropEvents)
    case SuppressionsDeleted => Some(Suppressions)
    case UnsubscribesDeleted => Some(Unsubscribes)
    case SourcePeopleRemoved => Some(SourcePeople)
    case LinksCleared => Some(ClearLinks)
    case _ => None
  }

  lemma CountsItsStep(step: Step, key: CountKey)
    requires StepOf(key).Some?
    ensures CountOf(step) == Some(key) <==> step == StepOf(key).value
    ensures key != Placeholders
  {
  }

  lemma Kept<K(!new), V>(m: map<K, V>, n: map<K, V>, gone: set<K>)
    requires forall k | k in gone :: k in m
    requires forall k :: k in n <==> k in m && k !in gone
    ensures |n| + |gone| == |m|
  {
    assert n.Keys == m.Keys - gone && gone <= m.Keys;
    SizeOfMap(n);
    SizeOfMap(m);
  }

  function RecipientsGone(t: Tables, l: Look): (r: set<Id>) {
    set k | k in t.recipients && Lower(t.recipients[k].email) in l.emails
  }

  lemma RecipientsRows(t: Tables, l: Look)
    ensures Rows(Recipients, t, l) == |RecipientsGone(t, l)|
  {
    hide Lower, Theirs, IsWaiting, HitsMembership, HitsSend, HitsEvent, HitsSuppression;
    var gone := set k | k in t.recipients && Lower(t.recipients[k].email) in l.emails;
    assert gone == RecipientsGone(t, l);
  }

  lemma RecipientsKeys(step: Step, t: Tables, l: Look)
    ensures forall k | k in RecipientsGone(t, l) :: k in t.recipients
    ensures forall k ::
              k in RecipientsAfter(step, t, l)
              <==> k in t.recipients && !(step == Recipients && k in RecipientsGone(t, l))
  {
    hide Lower, Theirs, IsWaiting, MailNames, HitsMembership, HitsSend, HitsEvent, HitsSuppression;
  }

  lemma RecipientsHold(step: Step, t: Tables, l: Look)
    ensures |RecipientsAfter(step, t, l)| + (if step == Recipients then Rows(Recipients, t, l) else 0) == |t.recipients|
  {
    hide Rows, RecipientsAfter, RecipientsGone;
    RecipientsRows(t, l);
    RecipientsKeys(step, t, l);
    if step == Recipients {
      Kept(t.recipients, RecipientsAfter(step, t, l), RecipientsGone(t, l));
    } else {
      Kept(t.recipients, RecipientsAfter(step, t, l), {});
    }
  }

  function MembershipsGone(t: Tables, l: Look): (r: set<Id>) {
    set k | k in t.memberships && HitsMembership(t, l, t.memberships[k].1)
  }

  lemma MembershipsRows(t: Tables, l: Look)
    ensures Rows(Memberships, t, l) == |MembershipsGone(t, l)|
  {
    hide Lower, Theirs, IsWaiting, HitsMembership, HitsSend, HitsEvent, HitsSuppression;
    var gone := set k | k in t.memberships && HitsMembership(t, l, t.memberships[k].1);
    assert gone == MembershipsGone(t, l);
  }

  lemma MembershipsKeys(step: Step, t: Tables, l: Look)
    ensures forall k | k in MembershipsGone(t, l) :: k in t.memberships
    ensures forall k ::
              k in MembershipsAfter(step, t, l)
              <==> k in t.memberships && !(step == Memberships && k in MembershipsGone(t, l))
  {
    hide Lower, Theirs, IsWaiting, MailNames, HitsMembership, HitsSend, HitsEvent, HitsSuppression;
  }

  lemma MembershipsHold(step: Step, t: Tables, l: Look)
    ensures |MembershipsAfter(step, t, l)|
            + (if step == Memberships then Rows(Memberships, t, l) else 0) == |t.memberships|
  {
    hide Rows, MembershipsAfter, MembershipsGone;
    MembershipsRows(t, l);
    MembershipsKeys(step, t, l);
    if step == Memberships {
      Kept(t.memberships, MembershipsAfter(step, t, l), MembershipsGone(t, l));
    } else {
      Kept(t.memberships, MembershipsAfter(step, t, l), {});
    }
  }

  function QueueGone(t: Tables, l: Look): (r: set<Id>) {
    set k | k in t.queue && Theirs(l, t.queue[k]) && IsWaiting(t.queue[k])
  }

  lemma QueueRows(t: Tables, l: Look)
    ensures Rows(QueuedRows, t, l) == |QueueGone(t, l)|
  {
    hide Lower, Theirs, IsWaiting, HitsMembership, HitsSend, HitsEvent, HitsSuppression;
    var gone := set k | k in t.queue && Theirs(l, t.queue[k]) && IsWaiting(t.queue[k]);
    assert gone == QueueGone(t, l);
  }

  lemma QueueKeys(step: Step, t: Tables, l: Look)
    ensures forall k | k in QueueGone(t, l) :: k in t.queue
    ensures forall k :: k in QueueAfter(step, t, l) <==> k in t.queue && !(step == QueuedRows && k in QueueGone(t, l))
  {
    hide Lower, Theirs, IsWaiting, MailNames, HitsMembership, HitsSend, HitsEvent, HitsSuppression;
  }

  lemma QueueHold(step: Step, t: Tables, l: Look)
    ensures |QueueAfter(step, t, l)| + (if step == QueuedRows then Rows(QueuedRows, t, l) else 0) == |t.queue|
  {
    hide Rows, QueueAfter, QueueGone;
    QueueRows(t, l);
    QueueKeys(step, t, l);
    if step == QueuedRows {
      Kept(t.queue, QueueAfter(step, t, l), QueueGone(t, l));
    } else {
      Kept(t.queue, QueueAfter(step, t, l), {});
    }
  }

  function SendsGone(t: Tables, l: Look): (r: set<(Id, nat)>) {
    set k | k in t.sends && HitsSend(t, l, k)
  }

  lemma SendsRows(t: Tables, l: Look)
    ensures Rows(SendLinks, t, l) == |SendsGone(t, l)|
  {
    hide Lower, Theirs, IsWaiting, HitsMembership, HitsSend, HitsEvent, HitsSuppression;
    var gone := set k | k in t.sends && HitsSend(t, l, k);
    assert gone == SendsGone(t, l);
  }

  lemma SendsKeys(step: Step, t: Tables, l: Look)
    ensures forall k | k in SendsGone(t, l) :: k in t.sends
    ensures forall k :: k in SendsAfter(step, t, l) <==> k in t.sends && !(step == SendLinks && k in SendsGone(t, l))
  {
    hide Lower, Theirs, IsWaiting, MailNames, HitsMembership, HitsSend, HitsEvent, HitsSuppression;
  }

  lemma SendsHold(step: Step, t: Tables, l: Look)
    ensures |SendsAfter(step, t, l)| + (if step == SendLinks then Rows(SendLinks, t, l) else 0) == |t.sends|
  {
    hide Rows, SendsAfter, SendsGone;
    SendsRows(t, l);
    SendsKeys(step, t, l);
    if step == SendLinks {
      Kept(t.sends, SendsAfter(step, t, l), SendsGone(t, l));
    } else {
      Kept(t.sends, SendsAfter(step, t, l), {});
    }
  }

  function EventsGone(t: Tables, l: Look): (r: set<Id>) {
    set k | k in t.events && HitsEvent(t, l, t.events[k])
  }

  lemma EventsRows(t: Tables, l: Look)
    ensures Rows(DropEvents, t, l) == |EventsGone(t, l)|
  {
    hide Lower, Theirs, IsWaiting, HitsMembership, HitsSend, HitsEvent, HitsSuppression;
    var gone := set k | k in t.events && HitsEvent(t, l, t.events[k]);
    assert gone == EventsGone(t, l);
  }

  lemma EventsKeys(step: Step, t: Tables, l: Look)
    ensures forall k | k in EventsGone(t, l) :: k in t.events
    ensures forall k ::
              k in EventsAfter(step, t, l)
              <==> k in t.events && !(step == DropEvents && k in EventsGone(t, l))
  {
    hide Lower, Theirs, IsWaiting, MailNames, HitsMembership, HitsSend, HitsEvent, HitsSuppression;
  }

  lemma EventsHold(step: Step, t: Tables, l: Look)
    ensures |EventsAfter(step, t, l)| + (if step == DropEvents then Rows(DropEvents, t, l) else 0) == |t.events|
  {
    hide Rows, EventsAfter, EventsGone;
    EventsRows(t, l);
    EventsKeys(step, t, l);
    if step == DropEvents {
      Kept(t.events, EventsAfter(step, t, l), EventsGone(t, l));
    } else {
      Kept(t.events, EventsAfter(step, t, l), {});
    }
  }

  function SourcePeopleGone(t: Tables, l: Look): (r: set<(Id, nat)>) {
    set k | k in t.sourcePeople && Lower(t.sourcePeople[k].email) in l.emails
  }

  lemma SourcePeopleRows(t: Tables, l: Look)
    ensures Rows(SourcePeople, t, l) == |SourcePeopleGone(t, l)|
  {
    hide Lower, Theirs, IsWaiting, HitsMembership, HitsSend, HitsEvent, HitsSuppression;
    var gone := set k | k in t.sourcePeople && Lower(t.sourcePeople[k].email) in l.emails;
    assert gone == SourcePeopleGone(t, l);
  }

  lemma SourcePeopleKeys(step: Step, t: Tables, l: Look)
    ensures forall k | k in SourcePeopleGone(t, l) :: k in t.sourcePeople
    ensures forall k ::
              k in SourcePeopleAfter(step, t, l)
              <==> k in t.sourcePeople && !(step == SourcePeople && k in SourcePeopleGone(t, l))
  {
    hide Lower, Theirs, IsWaiting, MailNames, HitsMembership, HitsSend, HitsEvent, HitsSuppression;
  }

  lemma SourcePeopleHold(step: Step, t: Tables, l: Look)
    ensures |SourcePeopleAfter(step, t, l)|
            + (if step == SourcePeople then Rows(SourcePeople, t, l) else 0) == |t.sourcePeople|
  {
    hide Rows, SourcePeopleAfter, SourcePeopleGone;
    SourcePeopleRows(t, l);
    SourcePeopleKeys(step, t, l);
    if step == SourcePeople {
      Kept(t.sourcePeople, SourcePeopleAfter(step, t, l), SourcePeopleGone(t, l));
    } else {
      Kept(t.sourcePeople, SourcePeopleAfter(step, t, l), {});
    }
  }

  function SuppressionsGone(t: Tables, l: Look): (r: set<string>) {
    set k | k in t.suppressions && HitsSuppression(t, l, k, t.suppressions[k])
  }

  lemma SuppressionsRows(t: Tables, l: Look)
    ensures Rows(Suppressions, t, l) == |SuppressionsGone(t, l)|
  {
    hide Lower, Theirs, IsWaiting, HitsMembership, HitsSend, HitsEvent, HitsSuppression;
    var gone := set k | k in t.suppressions && HitsSuppression(t, l, k, t.suppressions[k]);
    assert gone == SuppressionsGone(t, l);
  }

  lemma SuppressionsKeys(step: Step, t: Tables, l: Look)
    ensures forall k | k in SuppressionsGone(t, l) :: k in t.suppressions
    ensures forall k ::
              k in SuppressionsAfter(step, t, l)
              <==> k in t.suppressions && !(step == Suppressions && k in SuppressionsGone(t, l))
  {
    hide Lower, Theirs, IsWaiting, MailNames, HitsMembership, HitsSend, HitsEvent, HitsSuppression;
  }

  lemma SuppressionsHold(step: Step, t: Tables, l: Look)
    ensures |SuppressionsAfter(step, t, l)|
            + (if step == Suppressions then Rows(Suppressions, t, l) else 0) == |t.suppressions|
  {
    hide Rows, SuppressionsAfter, SuppressionsGone;
    SuppressionsRows(t, l);
    SuppressionsKeys(step, t, l);
    if step == Suppressions {
      Kept(t.suppressions, SuppressionsAfter(step, t, l), SuppressionsGone(t, l));
    } else {
      Kept(t.suppressions, SuppressionsAfter(step, t, l), {});
    }
  }

  lemma UnsubscribesHold(step: Step, t: Tables, l: Look)
    ensures |UnsubscribesAfter(step, t, l)|
            + (if step == Unsubscribes then Rows(Unsubscribes, t, l) else 0) == |t.unsubscribes|
  {
    hide Lower, Names, Theirs, HitsSuppression;
    var gone := set k | k in t.unsubscribes && k.0 in l.emails;
    if step == Unsubscribes {
      assert t.unsubscribes == UnsubscribesAfter(step, t, l) + gone;
    }
  }

  function LinksGone(t: Tables, l: Look): (r: set<Id>) {
    set k | k in t.links && HitsLink(t, l, t.links[k])
  }

  lemma LinksRows(t: Tables, l: Look)
    ensures Rows(ClearLinks, t, l) == |LinksGone(t, l)|
  {
    hide HitsLink;
    var gone := set k | k in t.links && HitsLink(t, l, t.links[k]);
    assert gone == LinksGone(t, l);
  }

  lemma LinksHold(step: Step, t: Tables, u: Tables, l: Look)
    requires u.links == LinksAfter(step, t, l)
    ensures |Addressed(u)| + (if step == ClearLinks then Rows(ClearLinks, t, l) else 0) == |Addressed(t)|
  {
    hide Alone, LinkNames, Rows;
    if step == ClearLinks {
      LinksRows(t, l);
      assert Addressed(t) == Addressed(u) + LinksGone(t, l) && Addressed(u) !! LinksGone(t, l);
    } else {
      assert Addressed(u) == Addressed(t);
    }
  }

  lemma DeletesOfPeople(step: Step, t: Tables, l: Look, key: CountKey)
    requires StepOf(key).Some?
    requires key == RecipientsDeleted || key == MembershipsDeleted || key == SourcePeopleRemoved
             || key == UnsubscribesDeleted
    ensures Held(Do(step, t, l), key) + (if step == StepOf(key).value then Rows(step, t, l) else 0) == Held(t, key)
  {
    hide Do, Rows, Addressed;
    match key {
      case RecipientsDeleted =>
        RecipientsOf(step, t, l);
        RecipientsHold(step, t, l);
      case MembershipsDeleted =>
        MembershipsOf(step, t, l);
        MembershipsHold(step, t, l);
      case SourcePeopleRemoved =>
        SourcePeopleOf(step, t, l);
        SourcePeopleHold(step, t, l);
      case UnsubscribesDeleted =>
        UnsubscribesOf(step, t, l);
        UnsubscribesHold(step, t, l);
    }
  }

  lemma DeletesOfMail(step: Step, t: Tables, l: Look, key: CountKey)
    requires StepOf(key).Some?
    requires key == QueueRowsDeleted || key == SendLinksDeleted || key == EventsDeleted || key == SuppressionsDeleted
             || key == LinksCleared
    ensures Held(Do(step, t, l), key) + (if step == StepOf(key).value then Rows(step, t, l) else 0) == Held(t, key)
  {
    hide Do, Rows, Addressed;
    match key {
      case QueueRowsDeleted =>
        QueueOf(step, t, l);
        QueueHold(step, t, l);
      case SendLinksDeleted =>
        SendsOf(step, t, l);
        SendsHold(step, t, l);
      case EventsDeleted =>
        EventsOf(step, t, l);
        EventsHold(step, t, l);
      case SuppressionsDeleted =>
        SuppressionsOf(step, t, l);
        SuppressionsHold(step, t, l);
      case LinksCleared =>
        LinksOf(step, t, l);
        LinksHold(step, t, Do(step, t, l), l);
    }
  }

  /** Each statement deletes as many rows as it counts. */
  lemma Deletes(step: Step, t: Tables, l: Look, key: CountKey)
    requires StepOf(key).Some?
    ensures Held(Do(step, t, l), key) + (if step == StepOf(key).value then Rows(step, t, l) else 0) == Held(t, key)
  {
    hide Do, Rows, Held;
    if key == RecipientsDeleted || key == MembershipsDeleted || key == SourcePeopleRemoved
        || key == UnsubscribesDeleted {
      DeletesOfPeople(step, t, l, key);
    } else {
      DeletesOfMail(step, t, l, key);
    }
  }

  lemma {:induction false} DeletesInTurn(steps: seq<Step>, t: Tables, l: Look, counts: Counts, key: CountKey)
    requires StepOf(key).Some?
    ensures Held(DoAll(steps, t, l), key) + Get(CountAll(steps, t, l, counts), key) == Held(t, key) + Get(counts, key)
  {
    hide Do, Rows, StoodIn, Held, StepOf, CountOf;
    if steps != [] {
      Deletes(steps[0], t, l, key);
      CountsItsStep(steps[0], key);
      DeletesInTurn(steps[1..], Do(steps[0], t, l), l, Counted(steps[0], t, l, counts), key);
    }
  }

  /** The receipt's counts of deletions are exactly the rows that are gone:
      recipients, memberships, queue rows, send links, tracking events,
      suppressions, unsubscribes and people of Forms sources; and the links
      counted are those that had an address and have it no more. */
  lemma DeletionsAddUp(db: Db, c: Command, at: int, key: CountKey)
    requires c.request !in db.receipts && Erase(db, c, at).1.Completed? && StepOf(key).Some?
    ensures var (after, answer) := Erase(db, c, at);
            Held(after.tables, key) + Get(answer.receipt.counts, key) == Held(db.tables, key)
  {
    hide DoAll, CountAll, LookOf, MailInFlight, Refused, CanCommit, Held, StepOf;
    var l := LookOf(db.tables, c);
    var first := DoAll(FIRST_STEPS, db.tables, l);
    DeletesInTurn(FIRST_STEPS, db.tables, l, map[], key);
    DeletesInTurn(LAST_STEPS, first, l, CountAll(FIRST_STEPS, db.tables, l, map[]), key);
  }
}
