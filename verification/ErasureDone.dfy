// A completed erasure has nothing left to do.
module ErasureDone {
  import opened Options
  import opened Text
  import opened Erasure
  import opened ErasureProofs

  /** Whether a statement stays done: any but those on the people of requests,
      and those too unless a stand-in put in is the person's again. */
  predicate StaysDone(step: Step, l: Look) {
    GroupOf(step) == People ==> !TakesStandIn(l)
  }

  /** Every statement that stays done has nothing left to do, and no mail is
      waited for. */
  ghost predicate IsErased(t: Tables, l: Look) {
    (forall step: Step | StaysDone(step, l) :: Idle(step, t, l)) && !MailInFlight(t, l)
  }

  lemma {:induction false} EachIsDone(steps: seq<Step>, step: Step, t: Tables, l: Look)
    requires IsLook(l) && StaysDone(step, l) && (step in steps || Idle(step, t, l))
    ensures Idle(step, DoAll(steps, t, l), l)
  {
    hide Idle, Do, IsLook, Lessens;
    if steps != [] {
      var u := Do(steps[0], t, l);
      if step == steps[0] {
        DoneIsIdle(step, t, l);
      } else if step !in steps {
        DoLessens(steps[0], t, l);
        IdleStays(step, t, u, l);
      }
      EachIsDone(steps[1..], step, u, l);
    }
  }

  lemma EveryStepIsRun(step: Step)
    ensures step in FIRST_STEPS || step in LAST_STEPS
  {
    match step
    case InvalidateSources => assert FIRST_STEPS[0] == step;
    case CloseTokens => assert FIRST_STEPS[1] == step;
    case ClearLinks => assert FIRST_STEPS[2] == step;
    case DropEvents => assert FIRST_STEPS[3] == step;
    case SendVariables => assert FIRST_STEPS[4] == step;
    case ApprovalVariables => assert FIRST_STEPS[5] == step;
    case OwnInbox => assert FIRST_STEPS[6] == step;
    case NamingInbox => assert FIRST_STEPS[7] == step;
    case QueuedRows => assert FIRST_STEPS[8] == step;
    case NamingBodies => assert FIRST_STEPS[9] == step;
    case ApprovalChanges => assert FIRST_STEPS[10] == step;
    case ApprovalNotes => assert FIRST_STEPS[11] == step;
    case Reasons => assert FIRST_STEPS[12] == step;
    case Senders => assert FIRST_STEPS[13] == step;
    case TemplateArchivers => assert FIRST_STEPS[14] == step;
    case ListArchivers => assert FIRST_STEPS[15] == step;
    case SourceOwners => assert LAST_STEPS[0] == step;
    case SourceTitles => assert LAST_STEPS[1] == step;
    case SourcePeople => assert LAST_STEPS[2] == step;
    case Removers => assert LAST_STEPS[3] == step;
    case Reactivators => assert LAST_STEPS[4] == step;
    case ApprovalActors => assert LAST_STEPS[5] == step;
    case Submitters => assert LAST_STEPS[6] == step;
    case Authors => assert LAST_STEPS[7] == step;
    case SensitiveActors => assert LAST_STEPS[8] == step;
    case ViewActors => assert LAST_STEPS[9] == step;
    case StandIns => assert LAST_STEPS[10] == step;
    case SendLinks => assert LAST_STEPS[11] == step;
    case ApprovalPeople => assert LAST_STEPS[12] == step;
    case Suppressions => assert LAST_STEPS[13] == step;
    case Unsubscribes => assert LAST_STEPS[14] == step;
    case OwnMail => assert LAST_STEPS[15] == step;
    case Memberships => assert LAST_STEPS[16] == step;
    case Recipients => assert LAST_STEPS[17] == step;
  }

  lemma NotInFlightStays(t: Tables, u: Tables, l: Look)
    requires LessQueue(t, u, l) && !MailInFlight(t, l)
    ensures !MailInFlight(u, l)
  {
    hide MailNames;
  }

  /** After all statements none that stays done has anything to do, and no mail
      is waited for that was not after the first. */
  lemma AllAreDone(t: Tables, l: Look)
    requires IsLook(l)
    ensures var first := DoAll(FIRST_STEPS, t, l);
            var last := DoAll(LAST_STEPS, first, l);
            Lessens(t, last, l) && (!MailInFlight(first, l) ==> IsErased(last, l))
  {
    hide Idle, Do, IsLook, Lessens, MailInFlight;
    var first := DoAll(FIRST_STEPS, t, l);
    var last := DoAll(LAST_STEPS, first, l);
    DoAllLessens(FIRST_STEPS, t, l);
    DoAllLessens(LAST_STEPS, first, l);
    LessensInTurn(t, first, last, l);
    forall step: Step | StaysDone(step, l)
      ensures Idle(step, last, l)
    {
      EveryStepIsRun(step);
      if step in FIRST_STEPS {
        EachIsDone(FIRST_STEPS, step, t, l);
      }
      EachIsDone(LAST_STEPS, step, first, l);
    }
    if !MailInFlight(first, l) {
      QueueLess(first, last, l);
      NotInFlightStays(first, last, l);
    }
  }

  /** A completed erasure leaves no statement anything to do, and took out
      nothing but what concerned the person. */
  lemma CompletedErases(db: Db, c: Command, at: int)
    requires IsCommand(c) && c.request !in db.receipts
    requires Erase(db, c, at).1.Completed?
    ensures var l := LookOf(db.tables, c);
            IsErased(Erase(db, c, at).0.tables, l) && Lessens(db.tables, Erase(db, c, at).0.tables, l)
  {
    hide DoAll, CountAll, IsLook, IsErased, Lessens, LookOf, MailInFlight, Refused, CanCommit, IsCommand;
    CommandLooks(db.tables, c);
    AllAreDone(db.tables, LookOf(db.tables, c));
  }

  lemma QueueLess(t: Tables, u: Tables, l: Look)
    requires Lessens(t, u, l)
    ensures LessQueue(t, u, l)
  {
    hide LessQueue;
  }

  lemma StatusIsOne(q: QueueRow)
    ensures IsWaiting(q) || IsFinal(q) || q.status == Some(Processing)
  {
    match q.status
    case None =>
    case Some(status) =>
      match status
      case Pending =>
      case Processing =>
      case Sent =>
      case Failed =>
  }
}
