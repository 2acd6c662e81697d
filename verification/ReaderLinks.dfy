// Which polls move a mailbox's delta link, and where to; and what the reports
// they read are counted as.
module ReaderLinks {
  import opened Options
  import opened Dsn
  import opened Bounces
  import opened BounceFields
  import opened Readers

  // ---- The pages of a poll -------------------------------------------------

  /** The link a poll of a mode starts from: the stored one, or the first. */
  function FromLink(c: Config, s: State, mode: Mode): (r: string) {
    if mode in s.places && s.places[mode].link != "" then s.places[mode].link else c.first
  }

  /** Every message of a page that is to be read was, and its report stored. */
  predicate IsReadThrough(c: Config, w: World, n: nat, items: seq<Item>) {
    forall i | 0 <= i < |items| && !items[i].removed && items[i].id != "" :: IsRead(c, w, n, items[i])
  }

  /** A message is read unless its fetch fails or the database does not answer;
      and only a report that can be recorded is put to the database. */
  predicate IsRead(c: Config, w: World, n: nat, item: Item) {
    match w.fetch(n, item)
    case IsGone => true
    case TooLarge => true
    case FetchFails => false
    case Fetched(mime) =>
      UsesStore(c, Ndr(item.messageId, item.receivedAt, mime)) ==> w.store(n, item).Stores?
  }

  /** After a page that is not the last its next link is read; a link Graph no
      longer knows is given up for the first. */
  predicate LeadsOn(c: Config, w: World, n: nat, link: string, next: string) {
    match w.delta(n, link)
    case DeltaFails => false
    case LinkTooOld => link != c.first && next == c.first
    case Page(items, nextLink, delta) =>
      IsReadThrough(c, w, n, items) && delta == "" && nextLink != "" && next == nextLink
  }

  predicate IsLast(c: Config, w: World, n: nat, link: string) {
    match w.delta(n, link)
    case Page(items, _, delta) => IsReadThrough(c, w, n, items) && delta != ""
    case _ => false
  }

  /** The links of a poll that read to the end, from request number n on. */
  predicate IsChain(c: Config, w: World, n: nat, links: seq<string>) {
    && links != [] && n + |links| <= MAX_PAGES
    && (forall i | 0 <= i < |links| - 1 :: LeadsOn(c, w, n + i, links[i], links[i + 1]))
    && IsLast(c, w, n + |links| - 1, links[|links| - 1])
  }

  /** The delta link of the last page. */
  function LastDelta(c: Config, w: World, n: nat, links: seq<string>): (r: string)
    requires IsChain(c, w, n, links)
  {
    w.delta(n + |links| - 1, links[|links| - 1]).delta
  }

  /** Only a report that names a mail of the sender's and has a name of its own
      is put to the database: a failure of it stops nothing else. */
  lemma PutToTheDatabaseExactly(c: Config, ndr: Ndr)
    ensures UsesStore(c, ndr) <==>
            && ndr.mime.Delivery? && ReadStatus(ndr.mime.status).Ok?
            && !NoneNames(DecidingIds(ndr.mime.headers), c.fqdn) && NameOf(ndr.id, ndr.mime.headers) != ""
  {
    hide ReadStatus, ReportQueueId, DecidingIds, FirstNames, NoneNames;
    if ndr.mime.Delivery? && ReadStatus(ndr.mime.status).Ok? {
      var row := SomeOrNoneIsNamed(DecidingIds(ndr.mime.headers), c.fqdn);
      var zero: Uuid := seq(32, i => 0);
      RowIsDecided(ndr.mime.headers, ndr.mime.status, c.fqdn, if row.Some? then row.value else zero);
    }
  }

  // ---- Reading to the end --------------------------------------------------

  lemma ItemIsRead(c: Config, w: World, n: nat, db: Db, counts: Counts, item: Item)
    ensures ReadItem(c, w, n, db, counts, item).ok <==> IsRead(c, w, n, item)
  {
    hide Process, UsesStore;
  }

  lemma {:induction false} ItemsAreRead(c: Config, w: World, n: nat, db: Db, counts: Counts, items: seq<Item>)
    ensures ReadItems(c, w, n, db, counts, items).ok <==> IsReadThrough(c, w, n, items)
    decreases |items|
  {
    hide ReadItem, IsRead;
    if items != [] {
      var rest := items[1..];
      assert IsReadThrough(c, w, n, items) <==>
             (items[0].removed || items[0].id == "" || IsRead(c, w, n, items[0])) && IsReadThrough(c, w, n, rest) by {
        ThroughFirst(c, w, n, items);
      }
      if items[0].removed || items[0].id == "" {
        ItemsAreRead(c, w, n, db, counts, rest);
      } else {
        ItemIsRead(c, w, n, db, counts, items[0]);
        var read := ReadItem(c, w, n, db, counts, items[0]);
        ItemsAreRead(c, w, n, read.db, read.counts, rest);
      }
    }
  }

  lemma ThroughFirst(c: Config, w: World, n: nat, items: seq<Item>)
    requires items != []
    ensures IsReadThrough(c, w, n, items)
            <==> (items[0].removed || items[0].id == "" || IsRead(c, w, n, items[0]))
                 && IsReadThrough(c, w, n, items[1..])
  {
    hide IsRead;
    if (items[0].removed || items[0].id == "" || IsRead(c, w, n, items[0])) && IsReadThrough(c, w, n, items[1..]) {
      forall i | 0 <= i < |items| && !items[i].removed && items[i].id != ""
        ensures IsRead(c, w, n, items[i])
      {
        assert i > 0 ==> items[i] == items[1..][i - 1];
      }
    }
    if IsReadThrough(c, w, n, items) {
      forall i | 0 <= i < |items[1..]| && !items[1..][i].removed && items[1..][i].id != ""
        ensures IsRead(c, w, n, items[1..][i])
      {
        assert items[1..][i] == items[i + 1];
      }
    }
  }

  /** A poll that reads to the end reads a chain, and has its last delta link. */
  lemma {:induction false} EndsAtChain(c: Config, w: World, db: Db, counts: Counts, next: string, pages: nat)
    returns (links: seq<string>)
    requires pages <= MAX_PAGES && ReadPages(c, w, db, counts, next, pages).delta.Some?
    ensures IsChain(c, w, pages, links) && links[0] == next
    decreases MAX_PAGES - pages
  {
    hide ReadItems, IsReadThrough;
    match w.delta(pages, next)
    case LinkTooOld =>
      var rest := EndsAtChain(c, w, db, counts, c.first, pages + 1);
      links := Chained(c, w, pages, next, rest);
    case Page(items, nextLink, delta) =>
      ItemsAreRead(c, w, pages, db, counts, items);
      var read := ReadItems(c, w, pages, db, counts, items);
      if delta != "" {
        links := [next];
      } else {
        var rest := EndsAtChain(c, w, read.db, read.counts, nextLink, pages + 1);
        links := Chained(c, w, pages, next, rest);
      }
  }

  lemma Chained(c: Config, w: World, n: nat, link: string, rest: seq<string>) returns (links: seq<string>)
    requires IsChain(c, w, n + 1, rest) && LeadsOn(c, w, n, link, rest[0])
    ensures links == [link] + rest && IsChain(c, w, n, links)
  {
    hide LeadsOn, IsLast;
    links := [link] + rest;
    forall i | 0 <= i < |links| - 1
      ensures LeadsOn(c, w, n + i, links[i], links[i + 1])
    {
      if i > 0 {
        assert LeadsOn(c, w, n + 1 + (i - 1), rest[i - 1], rest[i]);
      }
    }
  }

  lemma Unchained(c: Config, w: World, n: nat, links: seq<string>)
    requires IsChain(c, w, n, links) && |links| > 1
    ensures LeadsOn(c, w, n, links[0], links[1]) && IsChain(c, w, n + 1, links[1..])
    ensures LastDelta(c, w, n + 1, links[1..]) == LastDelta(c, w, n, links)
  {
    hide LeadsOn, IsLast;
    var rest := links[1..];
    assert LeadsOn(c, w, n + 0, links[0], links[1]);
    forall i | 0 <= i < |rest| - 1
      ensures LeadsOn(c, w, n + 1 + i, rest[i], rest[i + 1])
    {
      assert LeadsOn(c, w, n + (i + 1), links[i + 1], links[i + 2]);
    }
  }

  /** And a chain is read to the end. */
  lemma {:induction false} ChainIsRead(c: Config, w: World, db: Db, counts: Counts, links: seq<string>, pages: nat)
    requires IsChain(c, w, pages, links)
    ensures ReadPages(c, w, db, counts, links[0], pages).delta == Some(LastDelta(c, w, pages, links))
    ensures ReadPages(c, w, db, counts, links[0], pages).requests == |links|
    decreases |links|
  {
    hide ReadItems, IsReadThrough;
    var next := links[0];
    if |links| > 1 {
      Unchained(c, w, pages, links);
      assert links[1..][0] == links[1];
    }
    match w.delta(pages, next)
    case DeltaFails =>
    case LinkTooOld =>
      ChainIsRead(c, w, db, counts, links[1..], pages + 1);
    case Page(items, nextLink, delta) =>
      ItemsAreRead(c, w, pages, db, counts, items);
      var read := ReadItems(c, w, pages, db, counts, items);
      if |links| > 1 {
        ChainIsRead(c, w, read.db, read.counts, links[1..], pages + 1);
      }
  }

  // ---- Which polls move the link -------------------------------------------

  /** A poll succeeds exactly when the link could be read and the poll recorded,
      and the pages from the link on end within the bound at one with a delta
      link, with every message on the way read. */
  lemma PollSucceedsExactly(c: Config, s: State, w: World)
    ensures Poll(c, s, w).ok <==>
            w.readsLink && w.records && exists links :: IsChain(c, w, 0, links) && links[0] == FromLink(c, s, w.mode)
  {
    hide ReadPages, LeadsOn, IsLast;
    var start := FromLink(c, s, w.mode);
    assert StartLink(c, s, w.mode) == start;
    if Poll(c, s, w).ok {
      var links := EndsAtChain(c, w, s.db, ZERO, start, 0);
    }
    if links :| IsChain(c, w, 0, links) && links[0] == start {
      ChainIsRead(c, w, s.db, ZERO, links, 0);
    }
  }

  /** A poll that succeeds keeps, for its own mode and no other, the delta link
      of its last page, which is not empty: the next starts there. One that
      does not succeed leaves every link as it was. */
  lemma LinkMovesExactly(c: Config, s: State, w: World, links: seq<string>)
    requires Poll(c, s, w).ok ==> IsChain(c, w, 0, links) && links[0] == FromLink(c, s, w.mode)
    ensures var t := Poll(c, s, w).state;
            && (Poll(c, s, w).ok ==>
                  && Poll(c, s, w).requests == |links|
                  && w.mode in t.places && t.places[w.mode].link == LastDelta(c, w, 0, links)
                  && LastDelta(c, w, 0, links) != "" && FromLink(c, t, w.mode) == LastDelta(c, w, 0, links))
            && (forall mode | mode != w.mode ::
                  (mode in t.places <==> mode in s.places) && (mode in s.places ==> t.places[mode] == s.places[mode]))
            && (!Poll(c, s, w).ok ==> forall mode :: FromLink(c, t, mode) == FromLink(c, s, mode))
            && (!Poll(c, s, w).ok ==> forall mode | mode in s.places ::
                  mode in t.places && t.places[mode].link == s.places[mode].link)
  {
    hide ReadPages;
    assert StartLink(c, s, w.mode) == FromLink(c, s, w.mode);
    if Poll(c, s, w).ok {
      ChainIsRead(c, w, s.db, ZERO, links, 0);
    }
  }

  /** After a poll that succeeded the link stands where its last page leads, and
      every message of the Inbox before that was handled, or is removed, gone
      or too large. */
  lemma MovedLinkBounds(c: Config, m: Mailbox, s: State, visits: seq<Visit>, links: seq<string>)
    requires AreVisits(c, m, visits) && s.places == map[] && visits != []
    requires var before, w := Polls(c, s, Worlds(visits[..|visits| - 1])), visits[|visits| - 1].world;
             w.mode.On? && Poll(c, before, w).ok && IsChain(c, w, 0, links) && links[0] == FromLink(c, before, w.mode)
    ensures var w := visits[|visits| - 1].world;
            forall i | 0 <= i < |m.log| && i < m.at(LastDelta(c, w, 0, links)) ::
              || m.log[i].removed || m.log[i].id == ""
              || visits[|visits| - 1].gone(m.log[i]) || m.content(m.log[i]).None?
              || exists h | h in RunHandled(c, s, Worlds(visits)) :: h.item == m.log[i]
  {
    hide RunHandled, Polls, AreVisits, Poll, IsChain, LastDelta, FromLink;
    var init, v := visits[..|visits| - 1], visits[|visits| - 1];
    assert Worlds(visits)[..|visits| - 1] == Worlds(init);
    PollsEnd(c, s, Worlds(visits));
    LinkMovesExactly(c, Polls(c, s, Worlds(init)), v.world, links);
    AtLeastOnce(c, m, s, visits);
    assert Stands(m, PlaceOf(Polls(c, s, Worlds(visits)), On).link) == m.at(LastDelta(c, v.world, 0, links));
    forall i | 0 <= i < |m.log| && i < m.at(LastDelta(c, v.world, 0, links))
      ensures IsDealt(m, v.gone, RunHandled(c, s, Worlds(visits)), m.log[i])
    {
    }
  }

  lemma PollsEnd(c: Config, s: State, worlds: seq<World>)
    requires worlds != []
    ensures Polls(c, s, worlds) == Poll(c, Polls(c, s, worlds[..|worlds| - 1]), worlds[|worlds| - 1]).state
  {
    hide Poll;
  }

  // ---- Counts --------------------------------------------------------------

  /** What a counter counts: reports, those that could not be read, and those
      that came to one outcome. */
  datatype Counted = Reports | NotReadable | CameTo(outcome: Outcome)

  function CountOf(c: Counts, what: Counted): (n: nat) {
    match what
    case Reports => c.reports
    case NotReadable => c.unreadable
    case CameTo(NotADsn) => c.notDsn
    case CameTo(Unmatched) => c.unmatched
    case CameTo(HardFailure) => c.hard
    case CameTo(SoftFailure) => c.soft
    case CameTo(Delayed) => c.delay
    case CameTo(OtherRecipient) => c.otherRecipient
    case CameTo(Duplicate) => c.duplicate
    case CameTo(ReportsNoFailure) => c.noFailure
  }

  /** The counter of an outcome goes up by one, and no other moves. */
  lemma AddsExactly(c: Counts, outcome: Outcome)
    ensures forall what :: CountOf(c.Add(outcome), what) == CountOf(c, what) + if what == CameTo(outcome) then 1 else 0
  {
  }

  /** Every counter of two counts is added. */
  lemma PlusExactly(c: Counts, d: Counts)
    ensures forall what :: CountOf(c.Plus(d), what) == CountOf(c, what) + CountOf(d, what)
  {
  }

  lemma OneMoreReport(c: Counts)
    ensures forall what ::
              CountOf(c.(reports := c.reports + 1), what) == CountOf(c, what) + if what == Reports then 1 else 0
    ensures forall what ::
              CountOf(c.(reports := c.reports + 1, unreadable := c.unreadable + 1), what)
              == CountOf(c, what) + if what == Reports || what == NotReadable then 1 else 0
  {
  }

  /** What reading a message moves a counter by: a message that is there counts
      as a report, and, when it was read, as exactly one thing: as unreadable
      when it is too large or its report cannot be read, and else as what the
      recorder says of it. One that is gone or could not be fetched counts as
      nothing. */
  function Moves(c: Config, w: World, n: nat, db: Db, item: Item, what: Counted): (r: nat) {
    match w.fetch(n, item)
    case IsGone => 0
    case FetchFails => 0
    case TooLarge => if what == Reports || what == NotReadable then 1 else 0
    case Fetched(mime) =>
      var outcome := Process(db, c.fqdn, c.sha, Ndr(item.messageId, item.receivedAt, mime), w.now(n, item)).1;
      if what == Reports then 1
      else if !IsRead(c, w, n, item) then 0
      else if what == (if outcome.Ok? then CameTo(outcome.value) else NotReadable) then 1 else 0
  }

  lemma ReadsCountExactly(c: Config, w: World, n: nat, db: Db, counts: Counts, item: Item, what: Counted)
    ensures CountOf(ReadItem(c, w, n, db, counts, item).counts, what)
            == CountOf(counts, what) + Moves(c, w, n, db, item, what)
  {
    hide Process, UsesStore, Counts.Add, CountOf;
    OneMoreReport(counts);
    if w.fetch(n, item).Fetched? {
      var ndr := NdrOf(item, w.fetch(n, item).mime);
      var outcome := Process(db, c.fqdn, c.sha, ndr, w.now(n, item)).1;
      if outcome.Ok? {
        AddsExactly(counts.(reports := counts.reports + 1), outcome.value);
      }
    }
  }

  lemma ItemEndsAlike(c: Config, w: World, n: nat, db: Db, counts: Counts, item: Item)
    ensures var end, alone := ReadItem(c, w, n, db, counts, item), ReadItem(c, w, n, db, ZERO, item);
            end.db == alone.db && end.ok == alone.ok
  {
    hide Process, UsesStore, Counts.Add;
  }

  /** The messages a page reads, up to the first that could not be, move a
      counter one after the other, each on the database the one before left. */
  function PageMoves(c: Config, w: World, n: nat, db: Db, items: seq<Item>, what: Counted): (r: nat)
    decreases |items|
  {
    if items == [] then 0
    else if items[0].removed || items[0].id == "" then PageMoves(c, w, n, db, items[1..], what)
    else
      Moves(c, w, n, db, items[0], what)
      + if IsRead(c, w, n, items[0])
        then PageMoves(c, w, n, ReadItem(c, w, n, db, ZERO, items[0]).db, items[1..], what) else 0
  }

  lemma {:induction false} PageCountsExactly(c: Config, w: World, n: nat, db: Db, counts: Counts, items: seq<Item>,
                                             what: Counted)
    ensures CountOf(ReadItems(c, w, n, db, counts, items).counts, what)
            == CountOf(counts, what) + PageMoves(c, w, n, db, items, what)
    decreases |items|
  {
    hide ReadItem, IsRead, Moves, CountOf;
    if items != [] {
      if items[0].removed || items[0].id == "" {
        PageCountsExactly(c, w, n, db, counts, items[1..], what);
      } else {
        ReadsCountExactly(c, w, n, db, counts, items[0], what);
        ItemEndsAlike(c, w, n, db, counts, items[0]);
        ItemIsRead(c, w, n, db, counts, items[0]);
        var read := ReadItem(c, w, n, db, counts, items[0]);
        PageCountsExactly(c, w, n, read.db, read.counts, items[1..], what);
      }
    }
  }

  /** The counts before a poll's pages are kept, whatever they are. */
  lemma {:induction false} CountsAreKept(c: Config, w: World, db: Db, counts: Counts, more: Counts, next: string,
                                         pages: nat, what: Counted)
    requires pages <= MAX_PAGES
    ensures CountOf(ReadPages(c, w, db, counts, next, pages).counts, what) - CountOf(counts, what)
            == CountOf(ReadPages(c, w, db, more, next, pages).counts, what) - CountOf(more, what)
    decreases MAX_PAGES - pages
  {
    hide ReadItems, CountOf, PageMoves;
    if pages < MAX_PAGES {
      match w.delta(pages, next)
      case DeltaFails =>
      case LinkTooOld =>
        CountsAreKept(c, w, db, counts, more, c.first, pages + 1, what);
      case Page(items, nextLink, delta) =>
        PageCountsExactly(c, w, pages, db, counts, items, what);
        PageCountsExactly(c, w, pages, db, more, items, what);
        PagesEndAlike(c, w, pages, db, counts, items);
        PagesEndAlike(c, w, pages, db, more, items);
        var read, alike := ReadItems(c, w, pages, db, counts, items), ReadItems(c, w, pages, db, more, items);
        CountsAreKept(c, w, read.db, read.counts, alike.counts, nextLink, pages + 1, what);
    }
  }

  lemma {:induction false} PagesEndAlike(c: Config, w: World, n: nat, db: Db, counts: Counts, items: seq<Item>)
    ensures var end, alone := ReadItems(c, w, n, db, counts, items), ReadItems(c, w, n, db, ZERO, items);
            end.db == alone.db && end.ok == alone.ok
    decreases |items|
  {
    hide ReadItem;
    if items != [] {
      if items[0].removed || items[0].id == "" {
        PagesEndAlike(c, w, n, db, counts, items[1..]);
      } else {
        ItemEndsAlike(c, w, n, db, counts, items[0]);
        var read, alone := ReadItem(c, w, n, db, counts, items[0]), ReadItem(c, w, n, db, ZERO, items[0]);
        PagesEndAlike(c, w, n, read.db, read.counts, items[1..]);
        PagesEndAlike(c, w, n, read.db, alone.counts, items[1..]);
      }
    }
  }

  /** What the reports of a poll came to. */
  function PollCounts(c: Config, s: State, w: World): (r: Counts) {
    if w.readsLink then ReadPages(c, w, s.db, ZERO, FromLink(c, s, w.mode), 0).counts else ZERO
  }

  function TotalOf(s: State, mode: Mode, what: Counted): (n: nat) {
    if mode in s.places then CountOf(s.places[mode].totals, what) else 0
  }

  lemma NothingIsCounted()
    ensures forall what :: CountOf(ZERO, what) == 0
  {
  }

  /** Each total of a mailbox in a mode grows by what each poll in that mode
      counted, whether it succeeded or failed, unless it was cancelled or could
      not be recorded; and by nothing else. */
  lemma TotalsGrowExactly(c: Config, s: State, w: World, what: Counted)
    ensures var t := Poll(c, s, w).state;
            && (forall mode | mode != w.mode :: TotalOf(t, mode, what) == TotalOf(s, mode, what))
            && TotalOf(t, w.mode, what)
               == TotalOf(s, w.mode, what)
                  + if w.records && (Poll(c, s, w).ok || !w.cancelled) then CountOf(PollCounts(c, s, w), what) else 0
  {
    hide ReadPages, Counts.Plus, CountOf;
    assert StartLink(c, s, w.mode) == FromLink(c, s, w.mode);
    NothingIsCounted();
    PlusExactly(PlaceOf(s, w.mode).totals, PollCounts(c, s, w));
  }
}
