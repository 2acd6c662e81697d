// Polling a sender mailbox for reports: a consumer that keeps its place as a
// delta link, reads again what a failed poll read, and hands each report to
// the recorder.
module Readers {
  import opened Options
  import opened Dsn
  import opened Bounces
  import Text

  const MAX_PAGES := 400

  datatype Mode = DryRun | On

  datatype Counts = Counts(
    reports: nat,
    notDsn: nat,
    unmatched: nat,
    hard: nat,
    soft: nat,
    delay: nat,
    otherRecipient: nat,
    duplicate: nat,
    noFailure: nat,
    unreadable: nat)
  {
    function Add(outcome: Outcome): (r: Counts)
      ensures r.Outcomes() == Outcomes() + 1 && r.reports == reports
    {
      match outcome
      case NotADsn => this.(notDsn := notDsn + 1)
      case Unmatched => this.(unmatched := unmatched + 1)
      case HardFailure => this.(hard := hard + 1)
      case SoftFailure => this.(soft := soft + 1)
      case Delayed => this.(delay := delay + 1)
      case OtherRecipient => this.(otherRecipient := otherRecipient + 1)
      case Duplicate => this.(duplicate := duplicate + 1)
      case ReportsNoFailure => this.(noFailure := noFailure + 1)
    }

    function Plus(c: Counts): (r: Counts)
      ensures r.reports == reports + c.reports && r.Outcomes() == Outcomes() + c.Outcomes()
    {
      Counts(reports + c.reports, notDsn + c.notDsn, unmatched + c.unmatched, hard + c.hard, soft + c.soft,
             delay + c.delay, otherRecipient + c.otherRecipient, duplicate + c.duplicate, noFailure + c.noFailure,
             unreadable + c.unreadable)
    }

    /** The reports that came to something. */
    function Outcomes(): (n: nat) {
      notDsn + unmatched + hard + soft + delay + otherRecipient + duplicate + noFailure + unreadable
    }
  }

  const ZERO := Counts(0, 0, 0, 0, 0, 0, 0, 0, 0, 0)

  datatype Item = Item(id: string, removed: bool, messageId: string, receivedAt: Option<int>)

  datatype Fetch = Fetched(mime: Mime) | IsGone | TooLarge | FetchFails

  datatype DeltaAnswer = Page(items: seq<Item>, next: string, delta: string) | LinkTooOld | DeltaFails

  /** How the database answers a report: it is stored, or the call fails with
      nothing stored, or it fails though the report was stored. */
  datatype StoreAnswer = Stores | Loses | StoresUnheard

  /** Everything one poll meets: what Graph answers each delta request, counted
      from 0, and each fetch between it and the next; what the database does, and
      what the clock shows as each report is handled. */
  datatype World = World(
    mode: Mode,
    delta: (nat, string) -> DeltaAnswer,
    fetch: (nat, Item) -> Fetch,
    store: (nat, Item) -> StoreAnswer,
    now: (nat, Item) -> int,
    readsLink: bool,
    cancelled: bool,
    records: bool)

  datatype Config = Config(fqdn: string, sha: Hash, first: string)

  // ---- One poll ------------------------------------------------------------

  datatype ItemEnd = ItemEnd(db: Db, counts: Counts, ok: bool)

  function NdrOf(item: Item, mime: Mime): (r: Ndr) {
    Ndr(item.messageId, item.receivedAt, mime)
  }

  /** Whether a message gets as far as the database. */
  predicate UsesStore(c: Config, ndr: Ndr) {
    && Parse(ndr.mime).Reads? && ReportQueueId(Parse(ndr.mime).report, c.fqdn).Some?
    && (Text.TrimSpace(ndr.id) != "" || Parse(ndr.mime).report.messageId != "")
  }

  function ReadItem(c: Config, w: World, n: nat, db: Db, counts: Counts, item: Item): (r: ItemEnd) {
    match w.fetch(n, item)
    case IsGone => ItemEnd(db, counts, true)
    case TooLarge => ItemEnd(db, counts.(reports := counts.reports + 1, unreadable := counts.unreadable + 1), true)
    case FetchFails => ItemEnd(db, counts, false)
    case Fetched(mime) =>
      var ndr := NdrOf(item, mime);
      var counted := counts.(reports := counts.reports + 1);
      var (after, outcome) := Process(db, c.fqdn, c.sha, ndr, w.now(n, item));
      var kept := if w.mode.On? then after else db;
      if UsesStore(c, ndr) && !w.store(n, item).Stores? then
        ItemEnd(if w.store(n, item).StoresUnheard? then kept else db, counted, false)
      else if outcome.Err? then ItemEnd(kept, counted.(unreadable := counted.unreadable + 1), true)
      else ItemEnd(kept, counted.Add(outcome.value), true)
  }

  function ReadItems(c: Config, w: World, n: nat, db: Db, counts: Counts, items: seq<Item>): (r: ItemEnd)
    decreases |items|
  {
    if items == [] then ItemEnd(db, counts, true)
    else if items[0].removed || items[0].id == "" then ReadItems(c, w, n, db, counts, items[1..])
    else
      var read := ReadItem(c, w, n, db, counts, items[0]);
      if read.ok then ReadItems(c, w, n, read.db, read.counts, items[1..]) else read
  }

  /** How reading the pages ends: with the new delta link, or with none; and
      how many delta requests it made from page number pages on. */
  datatype PagesEnd = PagesEnd(db: Db, counts: Counts, delta: Option<string>, requests: nat)

  function ReadPages(c: Config, w: World, db: Db, counts: Counts, next: string, pages: nat): (r: PagesEnd)
    requires pages <= MAX_PAGES
    decreases MAX_PAGES - pages
  {
    if pages == MAX_PAGES then PagesEnd(db, counts, None, 0)
    else
      match w.delta(pages, next)
      case DeltaFails => PagesEnd(db, counts, None, 1)
      case LinkTooOld =>
        if next == c.first then PagesEnd(db, counts, None, 1)
        else After(ReadPages(c, w, db, counts, c.first, pages + 1))
      case Page(items, nextLink, delta) =>
        var read := ReadItems(c, w, pages, db, counts, items);
        if !read.ok then PagesEnd(read.db, read.counts, None, 1)
        else if delta != "" then PagesEnd(read.db, read.counts, Some(delta), 1)
        else if nextLink != "" then After(ReadPages(c, w, read.db, read.counts, nextLink, pages + 1))
        else PagesEnd(read.db, read.counts, None, 1)
  }

  function After(end: PagesEnd): (r: PagesEnd) {
    end.(requests := end.requests + 1)
  }

  /** The state row of a mailbox in a mode: its delta link, empty for none, and
      what the reports of its polls came to. */
  datatype Place = Place(link: string, totals: Counts)

  datatype State = State(db: Db, places: map<Mode, Place>)

  function PlaceOf(s: State, mode: Mode): (r: Place) {
    if mode in s.places then s.places[mode] else Place("", ZERO)
  }

  /** RecordBounceReaderPoll: no link keeps the one before; counts are added. */
  function Recorded(s: State, mode: Mode, delta: Option<string>, counts: Counts): (r: State) {
    var before := PlaceOf(s, mode);
    s.(places := s.places[mode := Place(if delta.Some? then delta.value else before.link, before.totals.Plus(counts))])
  }

  datatype PollEnd = PollEnd(state: State, ok: bool, requests: nat)

  function FailedPoll(w: World, s: State, counts: Counts): (r: State) {
    if w.cancelled || !w.records then s else Recorded(s, w.mode, None, counts)
  }

  function StartLink(c: Config, s: State, mode: Mode): (r: string) {
    if PlaceOf(s, mode).link == "" then c.first else PlaceOf(s, mode).link
  }

  function Poll(c: Config, s: State, w: World): (r: PollEnd) {
    if !w.readsLink then PollEnd(FailedPoll(w, s, ZERO), false, 0)
    else
      var end := ReadPages(c, w, s.db, ZERO, StartLink(c, s, w.mode), 0);
      var t := s.(db := end.db);
      if end.delta.None? then PollEnd(FailedPoll(w, t, end.counts), false, end.requests)
      else if !w.records then PollEnd(t, false, end.requests)
      else PollEnd(Recorded(t, w.mode, end.delta, end.counts), true, end.requests)
  }

  class Reader {
    const config: Config
    var db: Db
    var places: map<Mode, Place>
    var counts: Counts

    function Snapshot(): (s: State)
      reads this
    {
      State(db, places)
    }

    constructor (config: Config, s: State)
      ensures this.config == config && Snapshot() == s
    {
      this.config, db, places, counts := config, s.db, s.places, ZERO;
    }

    /** Fetches one item and gives it to the recorder. */
    method Read(w: World, n: nat, item: Item) returns (ok: bool)
      modifies `db, `counts
      ensures ItemEnd(db, counts, ok) == ReadItem(config, w, n, old(db), old(counts), item)
    {
      hide Process, UsesStore;
      var fetched := w.fetch(n, item);
      if fetched.IsGone? {
        return true;
      }
      if fetched.TooLarge? {
        counts := counts.(reports := counts.reports + 1, unreadable := counts.unreadable + 1);
        return true;
      }
      if fetched.FetchFails? {
        return false;
      }
      counts := counts.(reports := counts.reports + 1);
      var ndr := NdrOf(item, fetched.mime);
      var (after, outcome) := Process(db, config.fqdn, config.sha, ndr, w.now(n, item));
      if UsesStore(config, ndr) {
        var answer := w.store(n, item);
        if !answer.Stores? {
          if answer.StoresUnheard? && w.mode.On? {
            db := after;
          }
          return false;
        }
      }
      if w.mode.On? {
        db := after;
      }
      if outcome.Err? {
        counts := counts.(unreadable := counts.unreadable + 1);
      } else {
        counts := counts.Add(outcome.value);
      }
      return true;
    }

    method ReadPage(w: World, n: nat, items: seq<Item>) returns (ok: bool)
      modifies `db, `counts
      ensures ItemEnd(db, counts, ok) == ReadItems(config, w, n, old(db), old(counts), items)
    {
      hide ReadItem;
      ghost var whole := ReadItems(config, w, n, db, counts, items);
      for i := 0 to |items|
        invariant ReadItems(config, w, n, db, counts, items[i..]) == whole
      {
        assert items[i..][1..] == items[i + 1..];
        if items[i].removed || items[i].id == "" {
          continue;
        }
        var read := Read(w, n, items[i]);
        if !read {
          return false;
        }
      }
      return true;
    }

    method RecordPoll(w: World, delta: Option<string>)
      modifies `places
      ensures Snapshot() == Recorded(old(Snapshot()), w.mode, delta, counts)
    {
      var before := PlaceOf(Snapshot(), w.mode);
      places := places[w.mode := Place(if delta.Some? then delta.value else before.link, before.totals.Plus(counts))];
    }

    method Fail(w: World)
      modifies `places
      ensures Snapshot() == FailedPoll(w, old(Snapshot()), counts)
    {
      if !w.cancelled && w.records {
        RecordPoll(w, None);
      }
    }

    /** Reads page after page, from the start again when Graph no longer knows the
        link, up to the one that ends with a delta link: None when it stopped
        before. */
    method ReadToTheEnd(w: World, start: string) returns (delta: Option<string>, requests: nat)
      modifies `db, `counts
      ensures PagesEnd(db, counts, delta, requests) == ReadPages(config, w, old(db), old(counts), start, 0)
      ensures requests <= MAX_PAGES
    {
      hide ReadItems;
      ghost var end := ReadPages(config, w, db, counts, start, 0);
      var next := start;
      var pages := 0;
      requests := 0;
      while true
        invariant requests == pages <= MAX_PAGES
        invariant MadeBefore(ReadPages(config, w, db, counts, next, pages), requests) == end
        decreases MAX_PAGES - pages
      {
        if pages == MAX_PAGES {
          return None, requests;
        }
        var page := w.delta(pages, next);
        requests := requests + 1;
        if page.LinkTooOld? && next != config.first {
          next := config.first;
          pages := pages + 1;
          continue;
        }
        if !page.Page? {
          return None, requests;
        }
        var read := ReadPage(w, pages, page.items);
        if !read {
          return None, requests;
        }
        if page.delta != "" {
          return Some(page.delta), requests;
        }
        if page.next == "" {
          return None, requests;
        }
        next := page.next;
        pages := pages + 1;
      }
    }

    /** Reads what is new since the delta link, and keeps the new link only
        when it read to the end. */
    method PollMailbox(w: World) returns (ok: bool, requests: nat)
      modifies this
      ensures PollEnd(Snapshot(), ok, requests) == Poll(config, old(Snapshot()), w)
      ensures requests <= MAX_PAGES
    {
      hide ReadPages;
      counts := ZERO;
      if !w.readsLink {
        Fail(w);
        return false, 0;
      }
      var delta;
      delta, requests := ReadToTheEnd(w, StartLink(config, Snapshot(), w.mode));
      if delta.None? {
        Fail(w);
        return false, requests;
      }
      if !w.records {
        return false, requests;
      }
      RecordPoll(w, delta);
      return true, requests;
    }
  }

  /** An end with the requests made before it. */
  function MadeBefore(end: PagesEnd, requests: nat): (r: PagesEnd) {
    end.(requests := end.requests + requests)
  }

  // ---- Bounds and counts ---------------------------------------------------

  /** A poll makes at most MAX_PAGES delta requests, restarts included. */
  lemma PollIsBounded(c: Config, s: State, w: World)
    ensures Poll(c, s, w).requests <= MAX_PAGES
  {
    RequestsAreBounded(c, w, s.db, ZERO, StartLink(c, s, w.mode), 0);
  }

  lemma {:induction false} RequestsAreBounded(c: Config, w: World, db: Db, counts: Counts, next: string, pages: nat)
    requires pages <= MAX_PAGES
    ensures ReadPages(c, w, db, counts, next, pages).requests <= MAX_PAGES - pages
    decreases MAX_PAGES - pages
  {
    hide ReadItems;
    if pages < MAX_PAGES {
      match w.delta(pages, next)
      case DeltaFails =>
      case LinkTooOld =>
        RequestsAreBounded(c, w, db, counts, c.first, pages + 1);
      case Page(items, nextLink, delta) =>
        var read := ReadItems(c, w, pages, db, counts, items);
        RequestsAreBounded(c, w, read.db, read.counts, nextLink, pages + 1);
    }
  }

  /** Every report counted came to exactly one thing; one may be left over. */
  predicate Balanced(counts: Counts, ok: bool) {
    counts.Outcomes() <= counts.reports <= counts.Outcomes() + if ok then 0 else 1
  }

  lemma {:induction false} ItemsBalance(c: Config, w: World, n: nat, db: Db, counts: Counts, items: seq<Item>)
    requires Balanced(counts, true)
    ensures var end := ReadItems(c, w, n, db, counts, items); Balanced(end.counts, end.ok)
    decreases |items|
  {
    hide Process, UsesStore;
    if items != [] {
      if items[0].removed || items[0].id == "" {
        ItemsBalance(c, w, n, db, counts, items[1..]);
      } else {
        var read := ReadItem(c, w, n, db, counts, items[0]);
        if read.ok {
          ItemsBalance(c, w, n, read.db, read.counts, items[1..]);
        }
      }
    }
  }

  lemma {:induction false} PagesBalance(c: Config, w: World, db: Db, counts: Counts, next: string, pages: nat)
    requires pages <= MAX_PAGES && Balanced(counts, true)
    ensures var end := ReadPages(c, w, db, counts, next, pages); Balanced(end.counts, end.delta.Some?)
    decreases MAX_PAGES - pages
  {
    hide ReadItems;
    if pages < MAX_PAGES {
      match w.delta(pages, next)
      case DeltaFails =>
      case LinkTooOld =>
        PagesBalance(c, w, db, counts, c.first, pages + 1);
      case Page(items, nextLink, delta) =>
        ItemsBalance(c, w, pages, db, counts, items);
        var read := ReadItems(c, w, pages, db, counts, items);
        if read.ok {
          PagesBalance(c, w, read.db, read.counts, nextLink, pages + 1);
        }
    }
  }

  function Polls(c: Config, s: State, worlds: seq<World>): (r: State) {
    if worlds == [] then s
    else Poll(c, Polls(c, s, worlds[..|worlds| - 1]), worlds[|worlds| - 1]).state
  }

  /** How many polls ended before their last page. */
  function Stopped(c: Config, s: State, worlds: seq<World>): (n: nat) {
    if worlds == [] then 0
    else
      Stopped(c, s, worlds[..|worlds| - 1])
      + if Poll(c, Polls(c, s, worlds[..|worlds| - 1]), worlds[|worlds| - 1]).ok then 0 else 1
  }

  /** The totals kept of a mailbox: over any polls every report came to exactly
      one thing, but for at most one for each poll that was stopped. */
  lemma {:induction false} TotalsBalance(c: Config, s: State, worlds: seq<World>, mode: Mode)
    requires s.places == map[]
    ensures var totals := PlaceOf(Polls(c, s, worlds), mode).totals;
            totals.Outcomes() <= totals.reports <= totals.Outcomes() + Stopped(c, s, worlds)
  {
    hide Poll, Counts.Outcomes;
    if worlds == [] {
      assert ZERO.Outcomes() == 0 by {
        NothingCounted();
      }
    } else {
      TotalsBalance(c, s, worlds[..|worlds| - 1], mode);
      PollBalances(c, Polls(c, s, worlds[..|worlds| - 1]), worlds[|worlds| - 1], mode);
    }
  }

  lemma NothingCounted()
    ensures ZERO.Outcomes() == 0
  {
  }

  lemma PollBalances(c: Config, s: State, w: World, mode: Mode)
    ensures var a, end := PlaceOf(s, mode).totals, Poll(c, s, w);
            var b := PlaceOf(end.state, mode).totals;
            0 <= (b.reports - b.Outcomes()) - (a.reports - a.Outcomes()) <= if end.ok then 0 else 1
  {
    hide ReadPages, Counts.Outcomes, Counts.Plus;
    NothingCounted();
    PagesBalance(c, w, s.db, ZERO, StartLink(c, s, w.mode), 0);
  }

  // ---- What a run handles ---------------------------------------------------

  /** One report given to the recorder and stored, and when. */
  datatype Handling = Handling(item: Item, now: int)

  predicate IsSkipped(item: Item) {
    item.removed || item.id == ""
  }

  /** Whether what an item says was stored, though the call may have failed. */
  predicate IsStored(c: Config, w: World, n: nat, item: Item) {
    w.mode.On? && w.fetch(n, item).Fetched?
    && (UsesStore(c, NdrOf(item, w.fetch(n, item).mime)) ==> !w.store(n, item).Loses?)
  }

  /** Whether the poll goes on after an item. */
  predicate GoesOn(c: Config, w: World, n: nat, item: Item) {
    match w.fetch(n, item)
    case Fetched(mime) => UsesStore(c, NdrOf(item, mime)) ==> w.store(n, item).Stores?
    case FetchFails => false
    case _ => true
  }

  function ItemsHandled(c: Config, w: World, n: nat, items: seq<Item>): (r: seq<Handling>) {
    if items == [] then []
    else if IsSkipped(items[0]) then ItemsHandled(c, w, n, items[1..])
    else
      (if IsStored(c, w, n, items[0]) then [Handling(items[0], w.now(n, items[0]))] else [])
      + if GoesOn(c, w, n, items[0]) then ItemsHandled(c, w, n, items[1..]) else []
  }

  predicate ItemsGoOn(c: Config, w: World, n: nat, items: seq<Item>) {
    forall i | 0 <= i < |items| && !IsSkipped(items[i]) :: GoesOn(c, w, n, items[i])
  }

  function PagesHandled(c: Config, w: World, next: string, pages: nat): (r: seq<Handling>)
    requires pages <= MAX_PAGES
    decreases MAX_PAGES - pages
  {
    if pages == MAX_PAGES then []
    else
      match w.delta(pages, next)
      case DeltaFails => []
      case LinkTooOld => if next == c.first then [] else PagesHandled(c, w, c.first, pages + 1)
      case Page(items, nextLink, delta) =>
        ItemsHandled(c, w, pages, items)
        + if ItemsGoOn(c, w, pages, items) && delta == ""
            && nextLink != "" then PagesHandled(c, w, nextLink, pages + 1) else []
  }

  /** Every report a run of polls stored, in the order it stored them, each as
      often as it did. */
  function RunHandled(c: Config, s: State, worlds: seq<World>): (r: seq<Handling>) {
    if worlds == [] then []
    else
      var init, w := worlds[..|worlds| - 1], worlds[|worlds| - 1];
      RunHandled(c, s, init)
      + if w.readsLink then PagesHandled(c, w, StartLink(c, Polls(c, s, init), w.mode), 0) else []
  }

  // ---- The mailbox ----------------------------------------------------------

  /** The Inbox over all time: its changes in order, where in them a link
      stands, and each message's content, None when it is too large. */
  datatype Mailbox = Mailbox(log: seq<Item>, at: string -> nat, content: Item -> Option<Mime>)

  /** One poll, and which messages are gone from the Inbox by its end. */
  datatype Visit = Visit(world: World, gone: Item -> bool)

  /** Where a page leads: its delta link, or its next. */
  function LeadsTo(m: Mailbox, answer: DeltaAnswer): (r: nat)
    requires answer.Page?
  {
    if answer.delta != "" then m.at(answer.delta) else if answer.next != "" then m.at(answer.next) else 0
  }

  /** A page lists, in any order and as often as Graph likes, messages of the
      Inbox; it leaves none out between its own link and where it leads but
      those that are gone. */
  predicate Lists(m: Mailbox, v: Visit, link: string, answer: DeltaAnswer) {
    answer.Page? ==>
      && (forall i | 0 <= i < |answer.items| :: answer.items[i] in m.log)
      && (forall i | m.at(link) <= i < LeadsTo(m, answer) && i < |m.log| ::
         v.gone(m.log[i]) || m.log[i] in answer.items)
  }

  /** A fetch gives the message, or fails, or finds it gone. */
  predicate Gives(m: Mailbox, v: Visit, item: Item, fetch: Fetch) {
    match fetch
    case Fetched(mime) => m.content(item) == Some(mime)
    case TooLarge => m.content(item) == None
    case IsGone => v.gone(item)
    case FetchFails => true
  }

  ghost predicate Honest(c: Config, v: Visit, m: Mailbox) {
    && m.at(c.first) == 0
    && (forall n: nat, link: string :: Lists(m, v, link, v.world.delta(n, link)))
    && (forall n: nat, item: Item :: Gives(m, v, item, v.world.fetch(n, item)))
  }

  /** Polls one after the other: what is gone stays gone. */
  ghost predicate AreVisits(c: Config, m: Mailbox, visits: seq<Visit>) {
    && (forall i | 0 <= i < |visits| :: Honest(c, visits[i], m))
    && (forall i, j | 0 <= i <= j < |visits| :: StaysGone(visits[i], visits[j]))
  }

  ghost predicate StaysGone(v: Visit, later: Visit) {
    forall item: Item | v.gone(item) :: later.gone(item)
  }

  function Worlds(visits: seq<Visit>): (r: seq<World>)
    ensures |r| == |visits|
  {
    seq(|visits|, i requires 0 <= i < |visits| => visits[i].world)
  }

  function Handle(c: Config, m: Mailbox, db: Db, h: Handling): (r: Db) {
    match m.content(h.item)
    case None => db
    case Some(mime) => Process(db, c.fqdn, c.sha, NdrOf(h.item, mime), h.now).0
  }

  function HandleAll(c: Config, m: Mailbox, db: Db, hs: seq<Handling>): (r: Db) {
    if hs == [] then db else Handle(c, m, HandleAll(c, m, db, hs[..|hs| - 1]), hs[|hs| - 1])
  }

  lemma {:induction false} HandleAllJoins(c: Config, m: Mailbox, db: Db, a: seq<Handling>, b: seq<Handling>)
    ensures HandleAll(c, m, db, a + b) == HandleAll(c, m, HandleAll(c, m, db, a), b)
  {
    hide Handle;
    if b == [] {
      assert a + b == a;
    } else {
      assert (a + b)[..|a + b| - 1] == a + b[..|b| - 1];
      HandleAllJoins(c, m, db, a, b[..|b| - 1]);
    }
  }

  lemma HandleOne(c: Config, m: Mailbox, db: Db, h: Handling)
    ensures HandleAll(c, m, db, [h]) == Handle(c, m, db, h)
  {
    hide Handle;
    assert [h][..0] == [];
  }

  // ---- A poll does what it handles -------------------------------------------

  lemma ItemDoes(c: Config, m: Mailbox, v: Visit, n: nat, db: Db, counts: Counts, item: Item)
    requires Honest(c, v, m) && v.world.mode.On?
    ensures var end := ReadItem(c, v.world, n, db, counts, item);
            && end.db == (if IsStored(c, v.world, n, item)
               then Handle(c, m, db, Handling(item, v.world.now(n, item))) else db)
            && end.ok == GoesOn(c, v.world, n, item)
  {
    hide Process, UsesStore, Lists;
    assert Gives(m, v, item, v.world.fetch(n, item));
  }

  lemma {:induction false} ItemsDo(c: Config, m: Mailbox, v: Visit, n: nat, db: Db, counts: Counts, items: seq<Item>)
    requires Honest(c, v, m) && v.world.mode.On?
    ensures var end := ReadItems(c, v.world, n, db, counts, items);
            && end.db == HandleAll(c, m, db, ItemsHandled(c, v.world, n, items))
            && end.ok == ItemsGoOn(c, v.world, n, items)
    decreases |items|
  {
    hide ReadItem, Handle, Honest, IsStored, GoesOn;
    if items != [] {
      var rest := ItemsHandled(c, v.world, n, items[1..]);
      assert ItemsGoOn(c, v.world, n, items) <==>
             (IsSkipped(items[0]) || GoesOn(c, v.world, n, items[0])) && ItemsGoOn(c, v.world, n, items[1..]) by {
        GoOnFirst(c, v.world, n, items);
      }
      if IsSkipped(items[0]) {
        ItemsDo(c, m, v, n, db, counts, items[1..]);
      } else {
        ItemDoes(c, m, v, n, db, counts, items[0]);
        var read := ReadItem(c, v.world, n, db, counts, items[0]);
        var first: seq<Handling> := if IsStored(c, v.world, n, items[0])
            then [Handling(items[0], v.world.now(n, items[0]))] else [];
        HandleOne(c, m, db, Handling(items[0], v.world.now(n, items[0])));
        if read.ok {
          ItemsDo(c, m, v, n, read.db, read.counts, items[1..]);
          HandleAllJoins(c, m, db, first, rest);
        } else {
          assert ItemsHandled(c, v.world, n, items) == first;
        }
      }
    }
  }

  lemma GoOnFirst(c: Config, w: World, n: nat, items: seq<Item>)
    requires items != []
    ensures ItemsGoOn(c, w, n, items)
            <==> (IsSkipped(items[0]) || GoesOn(c, w, n, items[0])) && ItemsGoOn(c, w, n, items[1..])
  {
    hide GoesOn;
    if (IsSkipped(items[0]) || GoesOn(c, w, n, items[0])) && ItemsGoOn(c, w, n, items[1..]) {
      forall i | 0 <= i < |items| && !IsSkipped(items[i])
        ensures GoesOn(c, w, n, items[i])
      {
        assert i > 0 ==> items[i] == items[1..][i - 1];
      }
    }
    if ItemsGoOn(c, w, n, items) {
      forall i | 0 <= i < |items[1..]| && !IsSkipped(items[1..][i])
        ensures GoesOn(c, w, n, items[1..][i])
      {
        assert items[1..][i] == items[i + 1];
      }
    }
  }

  lemma {:induction false} PagesDo(c: Config, m: Mailbox, v: Visit, db: Db, counts: Counts, next: string, pages: nat)
    requires Honest(c, v, m) && v.world.mode.On? && pages <= MAX_PAGES
    ensures ReadPages(c, v.world, db, counts, next, pages).db
            == HandleAll(c, m, db, PagesHandled(c, v.world, next, pages))
    decreases MAX_PAGES - pages
  {
    hide ReadItems, ItemsHandled, ItemsGoOn, Handle, Honest;
    if pages < MAX_PAGES {
      match v.world.delta(pages, next)
      case DeltaFails =>
      case LinkTooOld =>
        if next != c.first {
          PagesDo(c, m, v, db, counts, c.first, pages + 1);
        }
      case Page(items, nextLink, delta) =>
        ItemsDo(c, m, v, pages, db, counts, items);
        var read := ReadItems(c, v.world, pages, db, counts, items);
        var first := ItemsHandled(c, v.world, pages, items);
        if read.ok && delta == "" && nextLink != "" {
          PagesDo(c, m, v, read.db, read.counts, nextLink, pages + 1);
          HandleAllJoins(c, m, db, first, PagesHandled(c, v.world, nextLink, pages + 1));
        } else {
          assert PagesHandled(c, v.world, next, pages) == first;
        }
    }
  }

  lemma {:induction false} DryRunHandlesNothing(c: Config, w: World, db: Db, counts: Counts, next: string, pages: nat)
    requires pages <= MAX_PAGES && w.mode.DryRun?
    ensures ReadPages(c, w, db, counts, next, pages).db == db && PagesHandled(c, w, next, pages) == []
    decreases MAX_PAGES - pages
  {
    hide ReadItems, ItemsHandled, ItemsGoOn;
    if pages < MAX_PAGES {
      match w.delta(pages, next)
      case DeltaFails =>
      case LinkTooOld => DryRunHandlesNothing(c, w, db, counts, c.first, pages + 1);
      case Page(items, nextLink, delta) =>
        DryRunReadsOnly(c, w, pages, db, counts, items);
        var read := ReadItems(c, w, pages, db, counts, items);
        DryRunHandlesNothing(c, w, db, read.counts, nextLink, pages + 1);
    }
  }

  lemma {:induction false} DryRunReadsOnly(c: Config, w: World, n: nat, db: Db, counts: Counts, items: seq<Item>)
    requires w.mode.DryRun?
    ensures ReadItems(c, w, n, db, counts, items).db == db && ItemsHandled(c, w, n, items) == []
    decreases |items|
  {
    hide Process, UsesStore;
    if items != [] {
      DryRunReadsOnly(c, w, n, db, counts, items[1..]);
      DryRunReadsOnly(c, w, n, db, ReadItem(c, w, n, db, counts, items[0]).counts, items[1..]);
    }
  }

  /** The bounces and suppressions after any polls are those of the reports they
      stored, handled in that order. */
  lemma {:induction false} RunDoes(c: Config, m: Mailbox, s: State, visits: seq<Visit>)
    requires AreVisits(c, m, visits)
    ensures Polls(c, s, Worlds(visits)).db == HandleAll(c, m, s.db, RunHandled(c, s, Worlds(visits)))
  {
    hide Honest, ReadPages, PagesHandled, Handle;
    if visits != [] {
      var init, v := visits[..|visits| - 1], visits[|visits| - 1];
      assert Worlds(visits)[..|visits| - 1] == Worlds(init);
      RunDoes(c, m, s, init);
      var t := Polls(c, s, Worlds(init));
      var before, next := RunHandled(c, s, Worlds(init)), StartLink(c, t, v.world.mode);
      if v.world.readsLink {
        if v.world.mode.On? {
          PagesDo(c, m, v, t.db, ZERO, next, 0);
        } else {
          DryRunHandlesNothing(c, v.world, t.db, ZERO, next, 0);
        }
        HandleAllJoins(c, m, s.db, before, PagesHandled(c, v.world, next, 0));
      } else {
        assert before + [] == before;
      }
    }
  }

  // ---- At least once ---------------------------------------------------------

  /** An item is dealt with: nothing to read, gone, too large, or handled. */
  predicate IsDealt(m: Mailbox, gone: Item -> bool, hs: seq<Handling>, item: Item) {
    IsSkipped(item) || gone(item) || m.content(item).None? || IsHandled(hs, item)
  }

  predicate IsHandled(hs: seq<Handling>, item: Item) {
    exists i | 0 <= i < |hs| :: hs[i].item == item
  }

  predicate DealtBefore(m: Mailbox, gone: Item -> bool, hs: seq<Handling>, place: nat) {
    forall i | 0 <= i < place && i < |m.log| :: IsDealt(m, gone, hs, m.log[i])
  }

  lemma DealtStays(m: Mailbox, gone: Item -> bool, later: Item -> bool, hs: seq<Handling>,
      more: seq<Handling>, item: Item)
    requires IsDealt(m, gone, hs, item) && (gone(item) ==> later(item))
    ensures IsDealt(m, later, hs + more, item)
  {
    if i :| 0 <= i < |hs| && hs[i].item == item {
      assert (hs + more)[i].item == item;
    }
  }

  lemma HandledJoins(a: seq<Handling>, b: seq<Handling>, item: Item)
    ensures IsHandled(a, item) || IsHandled(b, item) ==> IsHandled(a + b, item)
  {
    if i :| 0 <= i < |b| && b[i].item == item {
      assert (a + b)[|a| + i].item == item;
    }
    if i :| 0 <= i < |a| && a[i].item == item {
      assert (a + b)[i].item == item;
    }
  }

  lemma {:induction false} ItemsAreDealt(c: Config, m: Mailbox, v: Visit, n: nat, items: seq<Item>, i: nat)
    requires Honest(c, v, m) && v.world.mode.On? && ItemsGoOn(c, v.world, n, items) && i < |items|
    ensures IsDealt(m, v.gone, ItemsHandled(c, v.world, n, items), items[i])
    decreases |items|
  {
    hide UsesStore, Lists, IsHandled;
    GoOnFirst(c, v.world, n, items);
    var rest := ItemsHandled(c, v.world, n, items[1..]);
    if i == 0 {
      assert Gives(m, v, items[0], v.world.fetch(n, items[0]));
      if !IsSkipped(items[0]) && v.world.fetch(n, items[0]).Fetched? {
        assert IsHandled([Handling(items[0], v.world.now(n, items[0]))], items[0]) by {
          OneIsHandled(Handling(items[0], v.world.now(n, items[0])));
        }
        HandledJoins([Handling(items[0], v.world.now(n, items[0]))], rest, items[0]);
      }
    } else {
      ItemsAreDealt(c, m, v, n, items[1..], i - 1);
      if !IsSkipped(items[0]) {
        var first: seq<Handling> := if IsStored(c, v.world, n, items[0])
            then [Handling(items[0], v.world.now(n, items[0]))] else [];
        HandledJoins(first, rest, items[i]);
      }
    }
  }

  lemma OneIsHandled(h: Handling)
    ensures IsHandled([h], h.item)
  {
    assert [h][0].item == h.item;
  }

  lemma PageIsDealt(c: Config, m: Mailbox, v: Visit, n: nat, link: string, hs: seq<Handling>)
    requires Honest(c, v, m) && v.world.mode.On? && v.world.delta(n, link).Page?
    requires ItemsGoOn(c, v.world, n, v.world.delta(n, link).items)
    requires DealtBefore(m, v.gone, hs, m.at(link))
    ensures DealtBefore(m, v.gone, hs
            + ItemsHandled(c, v.world, n, v.world.delta(n, link).items), LeadsTo(m, v.world.delta(n, link)))
  {
    hide ItemsHandled, ItemsGoOn, IsDealt, Gives;
    var answer := v.world.delta(n, link);
    var more := ItemsHandled(c, v.world, n, answer.items);
    assert Lists(m, v, link, answer);
    forall i | 0 <= i < LeadsTo(m, answer) && i < |m.log|
      ensures IsDealt(m, v.gone, hs + more, m.log[i])
    {
      if i < m.at(link) {
        DealtStays(m, v.gone, v.gone, hs, more, m.log[i]);
      } else if m.log[i] in answer.items {
        var j :| 0 <= j < |answer.items| && answer.items[j] == m.log[i];
        ItemsAreDealt(c, m, v, n, answer.items, j);
        DealtToo(m, v.gone, hs, more, m.log[i]);
      } else {
        GoneIsDealt(m, v.gone, hs + more, m.log[i]);
      }
    }
  }

  lemma DealtToo(m: Mailbox, gone: Item -> bool, hs: seq<Handling>, more: seq<Handling>, item: Item)
    requires IsDealt(m, gone, more, item)
    ensures IsDealt(m, gone, hs + more, item)
  {
    hide IsHandled;
    HandledJoins(hs, more, item);
  }

  lemma GoneIsDealt(m: Mailbox, gone: Item -> bool, hs: seq<Handling>, item: Item)
    requires gone(item)
    ensures IsDealt(m, gone, hs, item)
  {
  }

  lemma {:induction false} PagesAreDealt(c: Config, m: Mailbox, v: Visit, hs: seq<Handling>, db: Db, counts: Counts,
                                         next: string, pages: nat)
    requires Honest(c, v, m) && v.world.mode.On? && pages <= MAX_PAGES
    requires DealtBefore(m, v.gone, hs, m.at(next))
    ensures var end := ReadPages(c, v.world, db, counts, next, pages);
            end.delta.Some? ==>
              end.delta.value != ""
              && DealtBefore(m, v.gone, hs + PagesHandled(c, v.world, next, pages), m.at(end.delta.value))
    decreases MAX_PAGES - pages
  {
    hide ReadItems, ItemsHandled, ItemsGoOn, DealtBefore;
    if pages < MAX_PAGES {
      match v.world.delta(pages, next)
      case DeltaFails =>
      case LinkTooOld =>
        if next != c.first {
          assert DealtBefore(m, v.gone, hs, m.at(c.first)) by {
            NothingBeforeTheFirst(m, v.gone, hs);
          }
          PagesAreDealt(c, m, v, hs, db, counts, c.first, pages + 1);
        }
      case Page(items, nextLink, delta) =>
        ItemsDo(c, m, v, pages, db, counts, items);
        var read := ReadItems(c, v.world, pages, db, counts, items);
        var first := ItemsHandled(c, v.world, pages, items);
        if read.ok {
          PageIsDealt(c, m, v, pages, next, hs);
          if delta == "" && nextLink != "" {
            PagesAreDealt(c, m, v, hs + first, read.db, read.counts, nextLink, pages + 1);
            assert hs + first + PagesHandled(c, v.world, nextLink, pages + 1) == hs
                + PagesHandled(c, v.world, next, pages);
          } else {
            assert PagesHandled(c, v.world, next, pages) == first;
          }
        }
    }
  }

  lemma NothingBeforeTheFirst(m: Mailbox, gone: Item -> bool, hs: seq<Handling>)
    ensures DealtBefore(m, gone, hs, 0)
  {
  }

  /** Where a stored link stands: at the start when there is none. */
  function Stands(m: Mailbox, link: string): (r: nat) {
    if link == "" then 0 else m.at(link)
  }

  function Gone(visits: seq<Visit>): (r: Item -> bool) {
    if visits == [] then item => false else visits[|visits| - 1].gone
  }

  lemma DealtBeforeStays(m: Mailbox, gone: Item -> bool, later: Item -> bool, hs: seq<Handling>,
      more: seq<Handling>, place: nat)
    requires DealtBefore(m, gone, hs, place) && forall item | gone(item) :: later(item)
    ensures DealtBefore(m, later, hs + more, place)
  {
    hide IsDealt;
    forall i | 0 <= i < place && i < |m.log|
      ensures IsDealt(m, later, hs + more, m.log[i])
    {
      DealtStays(m, gone, later, hs, more, m.log[i]);
    }
  }

  /** At least once: after any polls, dry or not, whatever page, fetch, database
      call or link failed, every item behind the stored link was handled, or is
      removed, gone from the Inbox, or too large to be read. */
  lemma {:induction false} AtLeastOnce(c: Config, m: Mailbox, s: State, visits: seq<Visit>)
    requires AreVisits(c, m, visits) && s.places == map[]
    ensures DealtBefore(m, Gone(visits), RunHandled(c, s, Worlds(visits)),
                        Stands(m, PlaceOf(Polls(c, s, Worlds(visits)), On).link))
  {
    hide Honest, ReadPages, PagesHandled, DealtBefore;
    if visits == [] {
      NothingBeforeTheFirst(m, Gone(visits), []);
    } else {
      var init, v := visits[..|visits| - 1], visits[|visits| - 1];
      assert Worlds(visits)[..|visits| - 1] == Worlds(init);
      AtLeastOnce(c, m, s, init);
      var t := Polls(c, s, Worlds(init));
      var hs, place := RunHandled(c, s, Worlds(init)), Stands(m, PlaceOf(t, On).link);
      var next := StartLink(c, t, v.world.mode);
      var more := if v.world.readsLink then PagesHandled(c, v.world, next, 0) else [];
      GoneGrows(visits);
      DealtBeforeStays(m, Gone(init), v.gone, hs, more, place);
      if v.world.readsLink && v.world.mode.On? {
        DealtBeforeStays(m, Gone(init), v.gone, hs, [], place);
        assert hs + [] == hs;
        assert m.at(next) == place by {
          FirstIsStart(c, m, v);
        }
        PagesAreDealt(c, m, v, hs, t.db, ZERO, next, 0);
      }
    }
  }

  lemma FirstIsStart(c: Config, m: Mailbox, v: Visit)
    requires Honest(c, v, m)
    ensures m.at(c.first) == 0
  {
  }

  lemma GoneGrows(visits: seq<Visit>)
    requires visits != []
    requires forall i, j | 0 <= i <= j < |visits| :: StaysGone(visits[i], visits[j])
    ensures var before, after := Gone(visits[..|visits| - 1]), Gone(visits); forall item | before(item) :: after(item)
  {
    if |visits| > 1 {
      assert StaysGone(visits[|visits| - 2], visits[|visits| - 1]);
    }
  }

  // ---- Exactly once ----------------------------------------------------------

  predicate IsEarlyHandling(c: Config, m: Mailbox, db: Db, h: Handling) {
    m.content(h.item).Some? && IsEarly(db.queue, c.fqdn, NdrOf(h.item, m.content(h.item).value), h.now)
  }

  /** The first handling of each item, in their order; one that came too early
      does not count. */
  function Firsts(c: Config, m: Mailbox, db: Db, hs: seq<Handling>): (r: seq<Handling>) {
    if hs == [] then []
    else
      var before, last := Firsts(c, m, db, hs[..|hs| - 1]), hs[|hs| - 1];
      if IsEarlyHandling(c, m, db, last) || IsHandled(before, last.item) then before else before + [last]
  }

  lemma {:induction false} FirstsExactly(c: Config, m: Mailbox, db: Db, hs: seq<Handling>)
    ensures var r := Firsts(c, m, db, hs);
            && (forall i | 0 <= i < |r| :: r[i] in hs && !IsEarlyHandling(c, m, db, r[i]))
            && (forall i, j | 0 <= i < j < |r| :: r[i].item != r[j].item)
            && (forall i | 0 <= i < |hs| && !IsEarlyHandling(c, m, db, hs[i]) :: IsHandled(r, hs[i].item))
  {
    hide IsEarlyHandling, IsHandled;
    if hs != [] {
      var init, last := hs[..|hs| - 1], hs[|hs| - 1];
      FirstsExactly(c, m, db, init);
      var before, r := Firsts(c, m, db, init), Firsts(c, m, db, hs);
      OneIsHandled(last);
      HandledJoins(before, [last], last.item);
      forall i | 0 <= i < |r|
        ensures r[i] in hs && !IsEarlyHandling(c, m, db, r[i])
      {
        if i < |before| {
          assert r[i] == before[i] && before[i] in init;
          InIsIn(hs, before[i]);
        }
      }
      forall i | 0 <= i < |hs| && !IsEarlyHandling(c, m, db, hs[i])
        ensures IsHandled(r, hs[i].item)
      {
        if i < |init| {
          assert init[i] == hs[i];
          HandledJoins(before, [last], hs[i].item);
        }
      }
      NotHandled(before, last.item);
    }
  }

  lemma InIsIn(hs: seq<Handling>, h: Handling)
    requires hs != [] && h in hs[..|hs| - 1]
    ensures h in hs
  {
  }

  lemma NotHandled(hs: seq<Handling>, item: Item)
    ensures !IsHandled(hs, item) ==> forall i | 0 <= i < |hs| :: hs[i].item != item
  {
  }

  ghost predicate IsQuiet(c: Config, m: Mailbox, db: Db, item: Item) {
    m.content(item).Some? ==> Settled(db, c.fqdn, c.sha, NdrOf(item, m.content(item).value))
  }

  lemma HandleKeepsQueue(c: Config, m: Mailbox, db: Db, h: Handling)
    ensures Handle(c, m, db, h).queue == db.queue
  {
    hide Process;
    if m.content(h.item).Some? {
      HandlesKeepQueue(db, c.fqdn, c.sha, NdrOf(h.item, m.content(h.item).value), h.now);
    }
  }

  lemma {:induction false} HandleAllKeepsQueue(c: Config, m: Mailbox, db: Db, hs: seq<Handling>)
    ensures HandleAll(c, m, db, hs).queue == db.queue
  {
    hide Handle;
    if hs != [] {
      HandleAllKeepsQueue(c, m, db, hs[..|hs| - 1]);
      HandleKeepsQueue(c, m, HandleAll(c, m, db, hs[..|hs| - 1]), hs[|hs| - 1]);
    }
  }

  lemma {:induction false} HandledIsQuiet(c: Config, m: Mailbox, db: Db, hs: seq<Handling>, i: nat)
    requires i < |hs| && forall i | 0 <= i < |hs| :: !IsEarlyHandling(c, m, db, hs[i])
    ensures IsQuiet(c, m, HandleAll(c, m, db, hs), hs[i].item)
  {
    hide Process, Settled, IsEarly;
    var init, last := hs[..|hs| - 1], hs[|hs| - 1];
    var before := HandleAll(c, m, db, init);
    HandleAllKeepsQueue(c, m, db, init);
    if i < |init| {
      HandledIsQuiet(c, m, db, init, i);
      if m.content(hs[i].item).Some? && m.content(last.item).Some? {
        SettledStays(before, c.fqdn, c.sha, NdrOf(hs[i].item, m.content(hs[i].item).value),
                     NdrOf(last.item, m.content(last.item).value), last.now);
      }
    } else if m.content(last.item).Some? {
      assert !IsEarlyHandling(c, m, db, hs[i]);
      HandledIsSettled(before, c.fqdn, c.sha, NdrOf(last.item, m.content(last.item).value), last.now);
    }
  }

  /** Handling every item once, when it was first handled, does what all the
      handlings did. */
  lemma {:induction false} FirstsDoAll(c: Config, m: Mailbox, db: Db, hs: seq<Handling>)
    ensures HandleAll(c, m, db, Firsts(c, m, db, hs)) == HandleAll(c, m, db, hs)
  {
    hide Process, Settled, IsEarly;
    if hs != [] {
      var init, last := hs[..|hs| - 1], hs[|hs| - 1];
      var before := Firsts(c, m, db, init);
      FirstsExactly(c, m, db, init);
      FirstsDoAll(c, m, db, init);
      var now := HandleAll(c, m, db, init);
      HandleAllKeepsQueue(c, m, db, init);
      if IsEarlyHandling(c, m, db, last) {
        EarlyDoesNothing(now, c.fqdn, c.sha, NdrOf(last.item, m.content(last.item).value), last.now);
      } else if IsHandled(before, last.item) {
        var i :| 0 <= i < |before| && before[i].item == last.item;
        HandledIsQuiet(c, m, db, before, i);
        QuietDoesNothing(c, m, now, last);
      } else {
        assert (before + [last])[..|before|] == before;
      }
    }
  }

  lemma QuietDoesNothing(c: Config, m: Mailbox, db: Db, h: Handling)
    requires IsQuiet(c, m, db, h.item) && !IsEarlyHandling(c, m, db, h)
    ensures Handle(c, m, db, h) == db
  {
    hide Process, IsEarly;
  }

  /** Exactly once: after any polls, dry or not, with failures at any page, fetch
      or database call, restarts that list only what is left, and messages that
      go between polls, the bounces and suppressions are those of one pass over
      the items handled, each once, in the order they were first handled. */
  lemma ExactlyOnce(c: Config, m: Mailbox, s: State, visits: seq<Visit>)
    requires AreVisits(c, m, visits)
    ensures var once := Firsts(c, m, s.db, RunHandled(c, s, Worlds(visits)));
            && Polls(c, s, Worlds(visits)).db == HandleAll(c, m, s.db, once)
            && (forall i, j | 0 <= i < j < |once| :: once[i].item != once[j].item)
            && (forall i | 0 <= i < |once| :: !IsEarlyHandling(c, m, s.db, once[i]))
  {
    hide Firsts, RunHandled, Polls, AreVisits, IsEarlyHandling, HandleAll;
    RunDoes(c, m, s, visits);
    FirstsExactly(c, m, s.db, RunHandled(c, s, Worlds(visits)));
    FirstsDoAll(c, m, s.db, RunHandled(c, s, Worlds(visits)));
  }

  /** Every item behind the stored link is one of that pass, but for those
      removed, gone, or too large, and a report without a date whose every
      handling came before the clock reached the time its mail was sent. */
  lemma BehindTheLinkIsHandled(c: Config, m: Mailbox, s: State, visits: seq<Visit>, i: nat)
    requires AreVisits(c, m, visits) && s.places == map[]
    requires i < |m.log| && i < Stands(m, PlaceOf(Polls(c, s, Worlds(visits)), On).link)
    ensures var all := RunHandled(c, s, Worlds(visits));
            var item := m.log[i];
            || IsSkipped(item) || Gone(visits)(item) || m.content(item).None?
            || IsHandled(Firsts(c, m, s.db, all), item)
            || (IsHandled(all, item) && forall h | h in all && h.item == item :: IsEarlyHandling(c, m, s.db, h))
  {
    hide Firsts, RunHandled, Polls, AreVisits, IsEarlyHandling;
    AtLeastOnce(c, m, s, visits);
    var all := RunHandled(c, s, Worlds(visits));
    FirstsExactly(c, m, s.db, all);
    assert IsDealt(m, Gone(visits), all, m.log[i]);
    if h :| h in all && h.item == m.log[i] && !IsEarlyHandling(c, m, s.db, h) {
      var k :| 0 <= k < |all| && all[k] == h;
    }
  }
}
