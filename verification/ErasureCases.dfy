// Databases at which an erasure leaves something of the person: each shows that
// the condition of a result beside it is needed.
module ErasureCases {
  import opened Options
  import opened Text
  import opened Erasure
  import opened ErasureProofs
  import opened ErasureDone
  import opened ErasureExact
  import opened ErasureResults
  import opened ErasureAgain
  import opened ErasureLinks
  import opened ErasureNames
  import opened ErasureCompletes

  // ---- A name that is lost -------------------------------------------------

  const NAME := "a b"
  const QUEUED := QueueRow(1, NAME, "p@q", None, "", "", None, Some(Pending), None, None, false, None, None)
  const NAMING := QueueRow(2, "x", "r@s", None, "", NAME, None, Some(Pending), None, None, false, None, None)
  const OUT := NAMING.(status := Some(Sent))
  const NO_ROWS := Tables(map[], map[], map[], map[], map[], map[], map[], map[], map[], map[], map[], map[], map[],
                          map[], map[], map[], map[], {}, map[], map[], map[], map[])
  const PERSON := Command(7, "u", ["p@q"])

  lemma PersonIsLookedFor(t: Tables)
    ensures IsCommand(PERSON) && Emails(PERSON) == {"p@q"} && !ToPerson("u", {"p@q"}, NAMING)
            && !ToPerson("u", {"p@q"}, OUT)
    ensures ToPerson("u", {"p@q"}, QUEUED)
  {
    hide Btrim;
    assert "p@q"[1] == '@';
    assert PERSON.emails[0] == "p@q";
    assert Lower("p@q") == "p@q" && Lower("r@s") == "r@s";
    assert Lower("p@q")[0] != DELETED_EMAIL[0];
    assert Btrim("p@q") == "p@q";
  }

  lemma NameCollapses()
    ensures Collapsed(NAME) == NAME
  {
    assert NAME[1..] == " b" && " b"[1..] == "b" && "b"[1..] == "";
    assert Collapsed("b") == "b";
    assert Collapsed(" b") == " b";
  }

  lemma NameIsFull()
    ensures FullName(NAME) == NAME && IsSearchable(NAME) && Contains(Lower(NAME), NAME)
  {
    hide Collapsed, Btrim;
    NameCollapses();
    assert Btrim(NAME) == NAME;
    assert Lower(NAME) == NAME;
    assert NAME[1] == ' ';
    assert |Lower(DELETED_NAME)| != |NAME|;
    assert OccursAt(NAME, NAME, 0);
  }

  const BOTH := NO_ROWS.(queue := map[1 := QUEUED, 2 := NAMING])
  const WAITING := NO_ROWS.(queue := map[2 := NAMING])
  const AFTER := NO_ROWS.(queue := map[2 := OUT])

  lemma {:induction false} FirstStepsLeaveElsewhere(steps: seq<Step>, t: Tables, l: Look)
    requires forall i | 0 <= i < |steps| :: IsFirst(steps[i])
    ensures SameElsewhere(t, DoAll(steps, t, l))
  {
    hide Do;
    if steps != [] {
      FirstStepsElsewhere(steps[0], t, l);
      FirstStepsLeaveElsewhere(steps[1..], Do(steps[0], t, l), l);
    }
  }

  lemma OnlyMailStays(u: Tables, l: Look)
    requires IsLook(l) && Lessens(BOTH, u, l) && SameElsewhere(BOTH, u)
    ensures u == NO_ROWS.(queue := u.queue)
  {
    hide LessQueue, LessMail, Lower, Names, LinkNames;
  }

  lemma QueueStays(u: Tables, l: Look)
    requires l.subject == "u" && l.emails == {"p@q"}
    requires LessQueue(BOTH, u, l) && Idle(QueuedRows, u, l)
    ensures u.queue == map[2 := NAMING]
  {
    hide Lower, Names, ToPerson;
    PersonIsLookedFor(BOTH);
    assert 2 in BOTH.queue && 2 in u.queue && u.queue[2] == NAMING;
    assert 1 !in u.queue by {
      QueuedGoes(u, l);
    }
    assert u.queue.Keys == {2};
  }

  lemma QueuedGoes(u: Tables, l: Look)
    requires l.subject == "u" && l.emails == {"p@q"}
    requires LessQueue(BOTH, u, l) && Idle(QueuedRows, u, l)
    ensures 1 !in u.queue
  {
    hide LessMail, Theirs;
    if 1 in u.queue {
      assert LessMail(l, QUEUED, u.queue[1]);
      StillTheirs(l, u.queue[1]);
      assert false;
    }
  }

  lemma StillTheirs(l: Look, r: QueueRow)
    requires l.subject == "u" && l.emails == {"p@q"} && LessMail(l, QUEUED, r)
    ensures Theirs(l, r) && IsWaiting(r)
  {
    hide Lower, ToPerson, Names;
    PersonIsLookedFor(BOTH);
    assert r == QUEUED.(token := r.token, tokenClosed := r.tokenClosed);
    SamePerson(l, r);
  }

  lemma SamePerson(l: Look, r: QueueRow)
    requires l.subject == "u" && l.emails == {"p@q"} && r == QUEUED.(token := r.token, tokenClosed := r.tokenClosed)
    ensures Theirs(l, r)
  {
    hide Lower;
    PersonIsLookedFor(BOTH);
  }

  lemma NameIsLookedFor()
    ensures NAME in LookOf(BOTH, PERSON).needles
  {
    hide Needles, FullName, IsSearchable, ToPerson, Emails, IsHeldElsewhere;
    PersonIsLookedFor(BOTH);
    NameIsFull();
    assert BOTH.queue[1] == QUEUED && IsHeld(BOTH, "u", {"p@q"}, NAME);
    NeedlesExactly(BOTH, "u", {"p@q"}, NAME);
  }

  lemma FirstStepsLeaveWaiting(l: Look)
    requires IsLook(l) && l.subject == "u" && l.emails == {"p@q"}
    ensures DoAll(FIRST_STEPS, BOTH, l) == WAITING
  {
    hide IsLook, DoAll, Idle, Lessens, SameElsewhere, LessQueue;
    var u := DoAll(FIRST_STEPS, BOTH, l);
    DoAllLessens(FIRST_STEPS, BOTH, l);
    QueueLess(BOTH, u, l);
    EachIsDone(FIRST_STEPS, QueuedRows, BOTH, l);
    FirstStepsAreFirst();
    FirstStepsLeaveElsewhere(FIRST_STEPS, BOTH, l);
    OnlyMailStays(u, l);
    QueueStays(u, l);
  }

  lemma FirstCallWaits()
    ensures NAME in LookOf(BOTH, PERSON).needles
    ensures Erase(Db(BOTH, map[]), PERSON, 0) == (Db(WAITING, map[]), InProgress)
  {
    hide IsLook, Needles, DoAll, Names, ToPerson, Emails, Refused, CanCommit, Sound;
    PersonIsLookedFor(BOTH);
    CommandLooks(BOTH, PERSON);
    NameIsLookedFor();
    var l := LookOf(BOTH, PERSON);
    FirstStepsLeaveWaiting(l);
    NameIsNamed(l);
    assert IsInFlight(l, WAITING.queue[2]);
    MailIsSound(BOTH);
    MailIsSound(WAITING);
    FirstIsNotRefused(BOTH, l);
  }

  lemma FirstIsNotRefused(t: Tables, l: Look)
    requires IsLook(l) && Sound(t)
    ensures !Refused(FIRST_STEPS, t, l)
  {
    hide IsLook, Refused, DoAll, NewsOnce, OncePerRequest, CanCommit;
    MailSplits();
    OthersAreNotRefused(FIRST_STEPS, t, l);
  }

  /** Tables with mail alone, none of it of a News record. */
  lemma MailIsSound(t: Tables)
    requires t.people == map[] && t.approvals == map[] && t.sources == map[]
    requires forall k | k in t.queue :: t.queue[k].sourceRef.None?
    ensures Sound(t) && CanCommit(t)
  {
  }

  lemma CompletesWithoutNews(db: Db, c: Command, at: int)
    requires IsCommand(c) && c.request !in db.receipts && Sound(db.tables)
    requires !MailInFlight(db.tables, LookOf(db.tables, c))
    requires forall k | k in db.tables.queue :: db.tables.queue[k].sourceRef.None?
    ensures Erase(db, c, at).1.Completed?
  {
    hide Erase, IsCommand, Sound, MailInFlight, LookOf, IsEmptiedMail;
    CompletesExactly(db, c, at);
  }

  lemma NameIsNamed(l: Look)
    requires NAME in l.needles
    ensures Names(l, NAME)
  {
    hide Lower, Contains;
    NameIsFull();
  }

  lemma SecondLook()
    ensures LookOf(AFTER, PERSON) == Look("u", {"p@q"}, {"p@q"})
  {
    hide Needles, FullName, IsSearchable, Emails, ToPerson;
    PersonIsLookedFor(AFTER);
    forall needle
      ensures needle in Needles(AFTER, "u", {"p@q"}) <==> needle in {"p@q"}
    {
      NeedlesExactly(AFTER, "u", {"p@q"}, needle);
    }
  }

  lemma NothingIsNamed(l: Look)
    requires l == Look("u", {"p@q"}, {"p@q"})
    ensures !MailNames(l, OUT) && !Theirs(l, OUT)
  {
    hide Lower, ToPerson;
    PersonIsLookedFor(AFTER);
    assert Lower("")  == "" && Lower(NAME) == NAME;
    assert '@' !in NAME && "p@q"[1] == '@';
    if Contains(Lower(NAME), "p@q") {
      ContainsChar(Lower(NAME), "p@q", '@');
    }
    if Contains(Lower(""), "p@q") {
      ContainsChar(Lower(""), "p@q", '@');
    }
  }

  lemma SecondCallIsIdle(l: Look, step: Step)
    requires l == Look("u", {"p@q"}, {"p@q"})
    ensures Idle(step, AFTER, l)
  {
    hide Lower, ToPerson, Names, MailNames, Theirs;
    NothingIsNamed(l);
  }

  /** A call that finds nothing to do completes and changes no table. */
  lemma IdleCompletes(db: Db, c: Command, at: int)
    requires IsCommand(c) && c.request !in db.receipts && Sound(db.tables)
    requires !MailInFlight(db.tables, LookOf(db.tables, c))
    requires forall step: Step :: Idle(step, db.tables, LookOf(db.tables, c))
    ensures Erase(db, c, at).1.Completed? && Erase(db, c, at).0.tables == db.tables
  {
    hide Erase, LookOf, DoAll, CountAll, Idle, IsCommand, MailInFlight, Refused, IsLook, Sound, CanCommit, NewsOnce,
      OncePerRequest;
    var t, l := db.tables, LookOf(db.tables, c);
    CommandLooks(t, c);
    IdlesDoNothing(FIRST_STEPS, t, l, map[]);
    IdlesDoNothing(LAST_STEPS, t, l, map[]);
    SoundIsOnce(t);
    FirstIsNotRefused(t, l);
    LastStepsRefused(t, l);
    ErasesAs(db, c, at);
  }

  lemma SecondCallCompletes()
    ensures Erase(Db(AFTER, map[]), PERSON, 0).1.Completed?
    ensures Erase(Db(AFTER, map[]), PERSON, 0).0.tables == AFTER
  {
    hide Erase, LookOf, Idle, Sound, IsCommand, MailInFlight;
    SecondLook();
    var l := LookOf(AFTER, PERSON);
    PersonIsLookedFor(AFTER);
    forall step: Step
      ensures Idle(step, AFTER, l)
    {
      SecondCallIsIdle(l, step);
    }
    NothingIsWaitedFor(l);
    AfterIsSound();
    IdleCompletes(Db(AFTER, map[]), PERSON, 0);
  }

  lemma NothingIsWaitedFor(l: Look)
    requires l == Look("u", {"p@q"}, {"p@q"})
    ensures !MailInFlight(AFTER, l)
  {
    hide MailNames, Theirs;
    NothingIsNamed(l);
  }

  lemma AfterIsSound()
    ensures Sound(AFTER)
  {
    MailIsSound(AFTER);
  }

  lemma SoundIsOnce(t: Tables)
    requires Sound(t)
    ensures NewsOnce(t) && OncePerRequest(t) && CanCommit(t)
  {
    hide NewsOnce, OncePerRequest, CanCommit;
  }

  lemma MailGoesOut()
    ensures GoesOn(WAITING, AFTER) && AFTER.queue[2].body == NAME
  {
  }

  /** The comment on the first statements says they change nothing the names
      are read from. They do: here the person's name is held only by a mail to
      them still queued, and another person's queued mail has it in its text.
      The first call looks for the name, deletes the one and waits for the
      other; once that is sent, the second call completes without looking for
      the name, and the mail keeps it. */
  lemma ANameIsLost()
    ensures IsCommand(PERSON) && NAME in LookOf(BOTH, PERSON).needles
    ensures Erase(Db(BOTH, map[]), PERSON, 0) == (Db(WAITING, map[]), InProgress)
    ensures GoesOn(WAITING, AFTER)
    ensures var (done, answer) := Erase(Db(AFTER, map[]), PERSON, 0);
            answer.Completed? && done.tables == AFTER
    ensures NAME !in LookOf(AFTER, PERSON).needles && AFTER.queue[2].body == NAME
  {
    hide Erase, LookOf, GoesOn, IsCommand;
    PersonIsLookedFor(BOTH);
    FirstCallWaits();
    MailGoesOut();
    SecondLook();
    SecondCallCompletes();
  }

  // ---- Mail without a status -----------------------------------------------

  const UNSET := QueueRow(2, "x", "r@s", None, "", "p@q", None, None, None, None, false, None, None)
  const NAMING_UNSET := NO_ROWS.(queue := map[2 := UNSET])

  lemma UnsetNames(l: Look)
    requires IsLook(l) && l.subject == "u" && l.emails == {"p@q"} && "p@q" in l.needles
    ensures !Theirs(l, UNSET) && MailNames(l, UNSET) && !MailInFlight(NAMING_UNSET, l)
  {
    hide IsLook, ToPerson;
    UnsetIsNotTheirs();
    assert Lower("p@q") == "p@q";
    assert OccursAt("p@q", "p@q", 0);
    assert Names(l, UNSET.body);
  }

  lemma UnsetIsNotTheirs()
    ensures !ToPerson("u", {"p@q"}, UNSET)
  {
    assert Lower("r@s") == "r@s";
  }

  /** Mail whose status was never set is neither waited for nor cleared: the
      erasure completes, and another person's mail keeps an address of theirs. */
  lemma AMailWithoutStatusIsKept()
    ensures IsCommand(PERSON) && MailNames(LookOf(NAMING_UNSET, PERSON), UNSET)
    ensures var (after, answer) := Erase(Db(NAMING_UNSET, map[]), PERSON, 0);
            answer.Completed? && 2 in after.tables.queue && after.tables.queue[2] == UNSET
  {
    hide Erase, IsCommand, Needles, Emails, MailNames, Theirs, MailInFlight, IsLook, QueueLeft, Erased, Sound;
    PersonIsLookedFor(NAMING_UNSET);
    CommandLooks(NAMING_UNSET, PERSON);
    AddressIsLookedFor(NAMING_UNSET);
    var l := LookOf(NAMING_UNSET, PERSON);
    UnsetNames(l);
    MailIsSound(NAMING_UNSET);
    CompletesWithoutNews(Db(NAMING_UNSET, map[]), PERSON, 0);
    QueueIsLeft(Db(NAMING_UNSET, map[]), PERSON, 0);
    UnsetStays(l);
  }

  lemma AddressIsLookedFor(t: Tables)
    ensures "p@q" in LookOf(t, PERSON).needles
  {
    hide Needles, Emails;
    PersonIsLookedFor(t);
    NeedlesExactly(t, "u", {"p@q"}, "p@q");
  }

  lemma UnsetStays(l: Look)
    requires !Theirs(l, UNSET)
    ensures 2 in QueueLeft(NAMING_UNSET, l) && QueueLeft(NAMING_UNSET, l)[2] == UNSET
  {
    hide Theirs, MailNames;
  }

  // ---- The stand-in's own address ------------------------------------------

  const TAKING := Command(7, "u", ["p@q", DELETED_EMAIL])
  const AGAIN := TAKING.(request := 8)
  const REQUEST := Approval("v", None, None, false, NO_VARIABLES, None, None)
  const REQUESTED := NO_ROWS.(approvals := map[1 := REQUEST], people := map[(1, 1) := Person("p@q", NAME)])

  lemma TakingIsACommand()
    ensures IsCommand(TAKING) && "p@q" in Emails(TAKING) && DELETED_EMAIL in Emails(TAKING)
  {
    hide Btrim, Emails;
    assert "p@q"[1] == '@' && DELETED_EMAIL[18] == '@';
    assert IsAddress("p@q") && IsAddress(DELETED_EMAIL);
    assert TAKING.emails[0] == "p@q" && TAKING.emails[1] == DELETED_EMAIL;
    CommandEmails(TAKING);
    DeletedEmailIsLower();
    assert Lower("p@q") == "p@q";
  }

  lemma RequestIsTheirsAlone(l: Look)
    requires "p@q" in l.emails
    ensures GoesToThemAlone(REQUESTED, l, 1) && !MailInFlight(REQUESTED, l)
  {
    assert Lower("p@q") == "p@q";
    assert (1, 1) in REQUESTED.people;
  }

  /** The route takes the stand-in's own address among the person's. Then a
      request that went to the person alone keeps a stand-in with an address of
      theirs, and erasing them again counts it again. */
  lemma AStandInIsTheirs()
    ensures IsCommand(TAKING) && DELETED_EMAIL in Emails(TAKING)
    ensures var (erased, answer) := Erase(Db(REQUESTED, map[]), TAKING, 0);
            && answer.Completed?
            && (1, 1) in erased.tables.people && erased.tables.people[(1, 1)] == STAND_IN
            && Erase(erased, AGAIN, 1).1.Completed? && !CountsNothing(Erase(erased, AGAIN, 1).1.receipt.counts)
  {
    hide Erase, IsCommand, Needles, Emails, MailInFlight, GoesToThemAlone, IsPersons, NoRowButPeople, NoActorIsThem,
      NoTextNamesThem, CountsNothing, IsTheirSend, Sound;
    TakingIsACommand();
    var db := Db(REQUESTED, map[]);
    var l := LookOf(REQUESTED, TAKING);
    RequestIsTheirsAlone(l);
    RequestIsSound();
    CompletesWithoutNews(db, TAKING, 0);
    ReceiptMeansGone(db, TAKING, 0);
    var k: (Id, nat) := (1, 1);
    assert k in Erase(db, TAKING, 0).0.tables.people;
    ReceiptOf(db, TAKING, 0);
    SameAddresses();
    ErasingAgain(db, TAKING, 0, AGAIN, 1);
  }

  lemma RequestIsSound()
    ensures Sound(REQUESTED)
  {
    hide Lower;
    assert (1, 1) in REQUESTED.people && HasPeople(REQUESTED, 1);
  }

  lemma SameAddresses()
    ensures Emails(AGAIN) == Emails(TAKING)
  {
  }

  lemma ReceiptOf(db: Db, c: Command, at: int)
    requires c.request !in db.receipts && Erase(db, c, at).1.Completed?
    ensures Erase(db, c, at).0.receipts == db.receipts[c.request := Erase(db, c, at).1.receipt]
  {
    hide DoAll, CountAll, LookOf, MailInFlight, Refused, CanCommit;
  }

  // ---- A link that does not unescape ---------------------------------------

  const BEFORE := "https://x/?d=50%&n="
  const WAYS := [AsIs, Percent('2', '0'), AsIs]
  const URL := "https://x/?d=50%&n=a%20b"
  const TRACKED := Link(1, Some(URL), false)
  const TO_ANOTHER := QueueRow(1, "x", "r@s", None, "", "", None, Some(Sent), None, None, false, None, None)
  const LINKED := NO_ROWS.(recipients := map[1 := Person("p@q", NAME)], queue := map[2 := TO_ANOTHER],
                           links := map[3 := TRACKED])

  lemma NameIsWritten(plus: bool)
    ensures IsWrittenIn(URL, BEFORE, NAME, WAYS, "", plus)
  {
    hide Escaped;
    assert IsWritten(' ', Percent('2', '0'), plus) by {
      assert HexValue('2') == Some(2) && HexValue('0') == Some(0);
    }
    NameEscaped();
    assert URL == BEFORE + ("a%20b" + "");
  }

  lemma NameEscaped()
    ensures Escaped(NAME, WAYS) == "a%20b"
  {
    assert NAME[1..] == " b" && WAYS[1..] == [Percent('2', '0'), AsIs];
    assert " b"[1..] == "b" && WAYS[1..][1..] == [AsIs];
    assert "b"[1..] == "" && [AsIs][1..] == [];
    assert Escaped("b", [AsIs]) == "b" + Escaped("", []) == "b";
    assert Escaped(" b", WAYS[1..]) == "%20" + "b";
  }

  lemma TheirNameIsLookedFor()
    ensures NAME in LookOf(LINKED, PERSON).needles
  {
    hide Needles, Emails, FullName, IsSearchable;
    PersonIsLookedFor(LINKED);
    NameIsFull();
    assert Lower("p@q") == "p@q";
    assert LINKED.recipients[1] == Person("p@q", NAME) && IsHeld(LINKED, "u", {"p@q"}, NAME);
    NeedlesExactly(LINKED, "u", {"p@q"}, NAME);
  }

  lemma UrlIsNotUnescaped()
    ensures !WellEscaped(URL)
  {
    assert URL[15] == '%' && URL[16] == '&' && HexValue('&').None?;
  }

  lemma NotContained(text: string, needle: string, c: char)
    requires LowerChar(c) == c && !('a' <= c <= 'z') && c in needle && c !in text
    ensures !Contains(Lower(text), Lower(needle))
  {
    hide Contains;
    var i :| 0 <= i < |needle| && needle[i] == c;
    assert Lower(needle)[i] == c;
    forall j | 0 <= j < |text|
      ensures Lower(text)[j] != c
    {
      assert text[j] in text;
    }
    if Contains(Lower(text), Lower(needle)) {
      ContainsChar(Lower(text), Lower(needle), c);
    }
  }

  lemma UrlIsPlain()
    ensures '@' !in URL && ' ' !in URL
  {
  }

  lemma UrlNamesNoOne(l: Look)
    requires IsLook(l)
    ensures !PlainlyNames(URL, l.needles)
  {
    hide Contains, Lower;
    UrlIsPlain();
    forall n | n in l.needles
      ensures !Contains(Lower(URL), Lower(n))
    {
      NotContained(URL, n, if '@' in n then '@' else ' ');
    }
  }

  lemma MailIsAnothers(l: Look)
    requires l.subject == "u" && l.emails == {"p@q"}
    ensures !Alone(LINKED, l, 1) && !MailInFlight(LINKED, l)
  {
    hide MailNames;
    assert Lower("r@s") == "r@s";
    assert 2 in LINKED.queue && LINKED.queue[2].task == 1 && !Theirs(l, LINKED.queue[2]);
  }

  /** A link tracking takes, with a '%' in its query that begins no escape: the
      erasure completes, looks for the name, and the link keeps it, written as
      a browser writes it. */
  lemma ALinkKeepsTheName(plus: bool)
    ensures IsCommand(PERSON) && NAME in LookOf(LINKED, PERSON).needles
    ensures IsWrittenIn(URL, BEFORE, NAME, WAYS, "", plus)
    ensures var (after, answer) := Erase(Db(LINKED, map[]), PERSON, 0);
            answer.Completed? && 3 in after.tables.links && after.tables.links[3] == TRACKED
  {
    hide Erase, IsCommand, Needles, Emails, MailInFlight, Alone, PlainlyNames, WellEscaped, IsWrittenIn, IsLook,
      Lower, Sound;
    PersonIsLookedFor(LINKED);
    CommandLooks(LINKED, PERSON);
    TheirNameIsLookedFor();
    NameIsWritten(plus);
    UrlIsNotUnescaped();
    var l := LookOf(LINKED, PERSON);
    UrlNamesNoOne(l);
    MailIsAnothers(l);
    MailIsSound(LINKED);
    CompletesWithoutNews(Db(LINKED, map[]), PERSON, 0);
    WrittenLinkIsClearedExactly(Db(LINKED, map[]), PERSON, 0, 3, BEFORE, NAME, WAYS, "", plus);
  }

  // ---- Two people of one News record ---------------------------------------

  const OTHER := Command(6, "v", ["r@s"])
  const NEWS_TO_OTHER := TO_ANOTHER.(sourceRef := Some("news:x"))
  const NEWS_TO_THEM := NEWS_TO_OTHER.(email := "p@q")
  const NEWS := NO_ROWS.(queue := map[1 := NEWS_TO_OTHER, 2 := NEWS_TO_THEM])

  lemma OtherIsACommand()
    ensures IsCommand(OTHER) && Emails(OTHER) == {"r@s"}
    ensures ToPerson("v", {"r@s"}, NEWS_TO_OTHER) && !ToPerson("v", {"r@s"}, NEWS_TO_THEM)
    ensures ToPerson("u", {"p@q"}, NEWS_TO_THEM)
  {
    hide Btrim;
    assert "r@s"[1] == '@';
    assert OTHER.emails[0] == "r@s";
    assert Lower("r@s") == "r@s" && Lower("p@q") == "p@q";
    assert Lower("r@s")[0] != "p@q"[0];
    assert Btrim("r@s") == "r@s";
  }

  lemma NewsIsSound()
    ensures Sound(NEWS)
  {
    assert Lower("r@s") == "r@s" && Lower("p@q") == "p@q";
    assert "r@s"[0] != "p@q"[0];
  }

  lemma OtherCompletes(at: int)
    ensures Erase(Db(NEWS, map[]), OTHER, at).1.Completed?
  {
    hide Erase, IsCommand, Needles, Emails, Sound, ToPerson, MailNames;
    OtherIsACommand();
    NewsIsSound();
    CompletesExactly(Db(NEWS, map[]), OTHER, at);
  }

  lemma SentIsNotInFlight(t: Tables, l: Look)
    requires forall k | k in t.queue :: t.queue[k].status == Some(Sent)
    ensures !MailInFlight(t, l)
  {
    hide Theirs, MailNames;
  }

  lemma NewsStaysSent(l: Look)
    ensures forall k | k in QueueLeft(NEWS, l) :: QueueLeft(NEWS, l)[k].status == Some(Sent)
  {
    hide Theirs, MailNames;
  }

  /** Two people got one News record's mail. The erasure of the one completes,
      and leaves a row of the record without an address; that of the other then
      fails with no mail in flight, each time it is called, and keeps nothing. */
  lemma TheSecondIsNotErased(at: int, later: int)
    ensures IsCommand(OTHER) && IsCommand(PERSON) && Sound(NEWS)
    ensures var (erased, answer) := Erase(Db(NEWS, map[]), OTHER, at);
            && answer.Completed?
            && !MailInFlight(erased.tables, LookOf(erased.tables, PERSON))
            && Erase(erased, PERSON, later) == (erased, RolledBack)
  {
    hide Erase, IsCommand, Needles, Emails, Sound, ToPerson, MailInFlight, QueueLeft;
    OtherIsACommand();
    PersonIsLookedFor(NEWS);
    NewsIsSound();
    OtherCompletes(at);
    var db := Db(NEWS, map[]);
    var erased := Erase(db, OTHER, at).0;
    QueueIsLeft(db, OTHER, at);
    NewsStaysSent(LookOf(NEWS, OTHER));
    SentIsNotInFlight(erased.tables, LookOf(erased.tables, PERSON));
    ReceiptOf(db, OTHER, at);
    SecondOfARecordIsRefused(db, OTHER, at, PERSON, later, 1, 2);
  }
}
