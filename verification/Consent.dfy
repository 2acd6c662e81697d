// What is asked of core: which addresses belong to an account, in batches, and
// who granted a purpose, page by page.
module Consent {
  import opened Options
  import opened Text

  const RESOLVE_BATCH := 1000
  const MAX_AUDIENCE_PAGES := 100

  function Normalized(address: string): (r: string) {
    Lower(TrimSpace(address))
  }

  datatype Recipient = Recipient(email: string, sub: string)

  datatype ResolvedItem = ResolvedItem(matched: bool, sub: string, allowed: bool, reason: string,
      unsubscribeUrl: string)

  datatype Error = BatchSize | CategoryUnknown | CallFailed | NotEveryRecipient | NoLink | UnknownReason
                 | NoItems | NoAddress | NoNextPage | TooManyPages

  /** What core may answer about a batch. */
  datatype Reply = Results(items: Option<seq<ResolvedItem>>) | UnknownCategory | Failed

  /** Core as it is: its answer to each call it gets, whatever was asked. */
  type Replies = (nat, seq<Recipient>) -> Reply

  /** One answer per recipient asked about, or none for anyone. */
  function Checked(reply: Reply, asked: nat): (r: Result<seq<ResolvedItem>, Error>)
    ensures r.Ok? ==> |r.value| == asked
  {
    match reply
    case UnknownCategory => Err(CategoryUnknown)
    case Failed => Err(CallFailed)
    case Results(items) =>
      if items.Some? && |items.value| == asked then Ok(items.value) else Err(NotEveryRecipient)
  }

  // ---- Matched: which addresses are an account's ---------------------------

  /** The addresses normalized, blank ones dropped, each once. */
  function Distinct(addresses: seq<string>): (r: seq<string>) {
    if addresses == [] then []
    else
      var before := Distinct(addresses[..|addresses| - 1]);
      var last := Normalized(addresses[|addresses| - 1]);
      if last != "" && last !in before then before + [last] else before
  }

  predicate NoneTwice(addresses: seq<string>) {
    forall i, j | 0 <= i < j < |addresses| :: addresses[i] != addresses[j]
  }

  predicate IsGiven(addresses: seq<string>, a: string) {
    a != "" && exists i | 0 <= i < |addresses| :: Normalized(addresses[i]) == a
  }

  lemma {:induction false} DistinctExactly(addresses: seq<string>)
    ensures NoneTwice(Distinct(addresses))
    ensures forall a :: a in Distinct(addresses) <==> IsGiven(addresses, a)
  {
    hide Normalized;
    if addresses != [] {
      var init, last := addresses[..|addresses| - 1], addresses[|addresses| - 1];
      DistinctExactly(init);
      forall a
        ensures IsGiven(addresses, a) <==> IsGiven(init, a) || (a != "" && a == Normalized(last))
      {
        if IsGiven(init, a) {
          var i :| 0 <= i < |init| && Normalized(init[i]) == a;
          assert Normalized(addresses[i]) == a;
        }
        if IsGiven(addresses, a) {
          var i :| 0 <= i < |addresses| && Normalized(addresses[i]) == a;
          assert i < |init| ==> Normalized(init[i]) == a;
        }
      }
    }
  }

  function ByEmail(addresses: seq<string>): (r: seq<Recipient>)
    ensures |r| == |addresses|
  {
    seq(|addresses|, i requires 0 <= i < |addresses| => Recipient(addresses[i], ""))
  }

  function FirstBatch(unique: seq<string>): (r: seq<string>) {
    if |unique| < RESOLVE_BATCH then unique else unique[..RESOLVE_BATCH]
  }

  function WithAnswers(matched: map<string, bool>, batch: seq<string>, items: seq<ResolvedItem>): (r: map<string, bool>)
    requires |items| == |batch|
  {
    if batch == [] then matched
    else
      var last := |batch| - 1;
      WithAnswers(matched, batch[..last], items[..last])[batch[last] := items[last].matched]
  }

  /** Asking about the addresses left, call after call. */
  function AskInBatches(core: Replies, call: nat, unique: seq<string>, matched: map<string, bool>)
    : (r: Result<map<string, bool>, Error>)
    decreases |unique|
  {
    if unique == [] then Ok(matched)
    else
      var batch := FirstBatch(unique);
      match Checked(core(call, ByEmail(batch)), |batch|)
      case Err(error) => Err(error)
      case Ok(items) => AskInBatches(core, call + 1, unique[|batch|..], WithAnswers(matched, batch, items))
  }

  /** The calls made for it: up to the first one not answered. */
  function Asked(core: Replies, call: nat, unique: seq<string>): (r: seq<seq<Recipient>>)
    decreases |unique|
  {
    if unique == [] then []
    else
      var batch := FirstBatch(unique);
      [ByEmail(batch)]
      + if Checked(core(call, ByEmail(batch)), |batch|).Ok? then Asked(core, call + 1, unique[|batch|..]) else []
  }

  function Flat(calls: seq<seq<Recipient>>): (r: seq<Recipient>) {
    if calls == [] then [] else calls[0] + Flat(calls[1..])
  }

  predicate IsAnswered(core: Replies, call: nat, asked: seq<Recipient>) {
    Checked(core(call, asked), |asked|).Ok?
  }

  predicate AllAnswered(core: Replies, call: nat, calls: seq<seq<Recipient>>) {
    forall k | 0 <= k < |calls| :: IsAnswered(core, call + k, calls[k])
  }

  lemma AllAnsweredFrom(core: Replies, call: nat, calls: seq<seq<Recipient>>)
    requires calls != []
    ensures AllAnswered(core, call, calls)
            <==> IsAnswered(core, call, calls[0]) && AllAnswered(core, call + 1, calls[1..])
  {
    hide IsAnswered;
    var later := calls[1..];
    if IsAnswered(core, call, calls[0]) && AllAnswered(core, call + 1, later) {
      forall k | 0 <= k < |calls|
        ensures IsAnswered(core, call + k, calls[k])
      {
        if k > 0 {
          assert IsAnswered(core, call + 1 + (k - 1), later[k - 1]);
        }
      }
    }
    if AllAnswered(core, call, calls) {
      assert IsAnswered(core, call + 0, calls[0]);
      forall k | 0 <= k < |later|
        ensures IsAnswered(core, call + 1 + k, later[k])
      {
        assert IsAnswered(core, call + (k + 1), calls[k + 1]);
      }
    }
  }

  lemma BatchSplits(unique: seq<string>)
    requires unique != []
    ensures var batch := FirstBatch(unique);
            1 <= |batch| <= RESOLVE_BATCH && |batch| <= |unique|
            && ByEmail(unique) == ByEmail(batch) + ByEmail(unique[|batch|..])
  {
  }

  /** Every address is asked about exactly once, in calls of 1 to the most core
      takes, when all are answered; up to the first unanswered call otherwise;
      and one call unanswered is no answer for anyone. */
  lemma {:induction false} AskedExactlyOnce(core: Replies, call: nat, unique: seq<string>, matched: map<string, bool>)
    ensures var calls := Asked(core, call, unique);
            && (forall k | 0 <= k < |calls| :: 1 <= |calls[k]| <= RESOLVE_BATCH)
            && Flat(calls) <= ByEmail(unique)
            && (AskInBatches(core, call, unique, matched).Ok? <==> AllAnswered(core, call, calls))
            && (AskInBatches(core, call, unique, matched).Ok? ==> Flat(calls) == ByEmail(unique))
    decreases |unique|
  {
    hide Checked, WithAnswers, FirstBatch, ByEmail, AllAnswered;
    if unique == [] {
      assert AllAnswered(core, call, []) by {
        NoneAsked(core, call);
      }
    } else {
      var batch := FirstBatch(unique);
      BatchSplits(unique);
      var calls := Asked(core, call, unique);
      AllAnsweredFrom(core, call, calls);
      if Checked(core(call, ByEmail(batch)), |batch|).Ok? {
        var items := Checked(core(call, ByEmail(batch)), |batch|).value;
        AskedExactlyOnce(core, call + 1, unique[|batch|..], WithAnswers(matched, batch, items));
        assert calls[1..] == Asked(core, call + 1, unique[|batch|..]);
      } else {
        assert calls[1..] == [] && Flat(calls) == ByEmail(batch);
      }
    }
  }

  lemma NoneAsked(core: Replies, call: nat)
    ensures AllAnswered(core, call, [])
  {
  }

  lemma {:induction false} AnswersAreOwn(matched: map<string, bool>, batch: seq<string>, items: seq<ResolvedItem>)
    requires |items| == |batch| && NoneTwice(batch)
    ensures var r := WithAnswers(matched, batch, items);
            && (forall a :: a in r <==> a in matched || a in batch)
            && (forall i | 0 <= i < |batch| :: r[batch[i]] == items[i].matched)
            && (forall a | a in matched && a !in batch :: r[a] == matched[a])
  {
    if batch != [] {
      var last := |batch| - 1;
      var init := batch[..last];
      InitAndLast(batch);
      AnswersAreOwn(matched, init, items[..last]);
      assert forall i | 0 <= i < last :: init[i] == batch[i] && items[..last][i] == items[i];
    }
  }

  lemma InitAndLast(batch: seq<string>)
    requires batch != [] && NoneTwice(batch)
    ensures var init, last := batch[..|batch| - 1], batch[|batch| - 1];
            NoneTwice(init) && last !in init && forall a :: a in batch <==> a in init || a == last
  {
    assert batch == batch[..|batch| - 1] + [batch[|batch| - 1]];
  }

  /** Core knows which addresses are accounts': however it is asked, what it
      says of each recipient is so. */
  ghost predicate IsTruthful(core: Replies, accounts: iset<string>) {
    forall call: nat, batch: seq<Recipient>, items: seq<ResolvedItem> | core(call, batch) == Results(Some(items))
        && |items| == |batch| ::
      forall i | 0 <= i < |batch| :: items[i].matched <==> batch[i].email in accounts
  }

  lemma BatchIsRight(core: Replies, accounts: iset<string>, call: nat, batch: seq<string>, matched: map<string, bool>)
    requires IsTruthful(core, accounts) && NoneTwice(batch)
    requires Checked(core(call, ByEmail(batch)), |batch|).Ok?
    ensures var r := WithAnswers(matched, batch, Checked(core(call, ByEmail(batch)), |batch|).value);
            && (forall a :: a in r <==> a in matched || a in batch)
            && (forall a | a in batch :: r[a] <==> a in accounts)
            && (forall a | a in matched && a !in batch :: r[a] == matched[a])
  {
    hide WithAnswers;
    var items := Checked(core(call, ByEmail(batch)), |batch|).value;
    assert core(call, ByEmail(batch)) == Results(Some(items)) && |items| == |ByEmail(batch)|;
    forall i | 0 <= i < |batch|
      ensures items[i].matched <==> batch[i] in accounts
    {
      assert ByEmail(batch)[i].email == batch[i];
    }
    AnswersAreOwn(matched, batch, items);
  }

  lemma FirstBatchSplits(unique: seq<string>)
    requires NoneTwice(unique)
    ensures var batch := FirstBatch(unique);
            && |batch| <= |unique| && (unique != [] ==> batch != []) && NoneTwice(batch) && NoneTwice(unique[|batch|..])
            && (forall a :: a in unique <==> a in batch || a in unique[|batch|..])
            && (forall a :: !(a in batch && a in unique[|batch|..]))
  {
    var batch := FirstBatch(unique);
    assert unique == batch + unique[|batch|..];
  }

  lemma {:induction false} BatchesAreRight(core: Replies, accounts: iset<string>, call: nat, unique: seq<string>,
                                           matched: map<string, bool>)
    requires IsTruthful(core, accounts) && NoneTwice(unique)
    ensures var r := AskInBatches(core, call, unique, matched);
            r.Ok? ==>
              && (forall a :: a in r.value <==> a in matched || a in unique)
              && (forall a | a in unique :: r.value[a] <==> a in accounts)
              && (forall a | a in matched && a !in unique :: r.value[a] == matched[a])
    decreases |unique|
  {
    hide WithAnswers, FirstBatch, ByEmail, Checked, IsTruthful, NoneTwice;
    if unique != [] {
      var batch := FirstBatch(unique);
      FirstBatchSplits(unique);
      var reply := Checked(core(call, ByEmail(batch)), |batch|);
      if reply.Ok? {
        BatchIsRight(core, accounts, call, batch, matched);
        BatchesAreRight(core, accounts, call + 1, unique[|batch|..], WithAnswers(matched, batch, reply.value));
      }
    }
  }

  /** Asking in batches is asking about each address alone: given an answer, it
      holds exactly the addresses given, normalized, and says of each whether
      it is an account's. */
  lemma MatchedIsAskingAlone(core: Replies, accounts: iset<string>, call: nat, addresses: seq<string>)
    requires IsTruthful(core, accounts)
    ensures var r := AskInBatches(core, call, Distinct(addresses), map[]);
            r.Ok? ==>
              && (forall a :: a in r.value <==> IsGiven(addresses, a))
              && (forall a | a in r.value :: r.value[a] <==> a in accounts)
  {
    hide IsGiven, IsTruthful, AskInBatches, NoneTwice;
    DistinctExactly(addresses);
    BatchesAreRight(core, accounts, call, Distinct(addresses), map[]);
  }

  /** The addresses of a call, by its place. */
  function BatchAt(unique: seq<string>, place: nat): (r: seq<string>)
    requires RESOLVE_BATCH * place <= |unique|
  {
    FirstBatch(unique[RESOLVE_BATCH * place..])
  }

  /** A value is the item at the address's place in the answer to the call the
      address was asked in. */
  predicate IsOwnAnswer(core: Replies, call: nat, unique: seq<string>, k: nat, value: bool)
    requires k < |unique|
  {
    var batch := BatchAt(unique, k / RESOLVE_BATCH);
    var place := k % RESOLVE_BATCH;
    var reply := Checked(core(call + k / RESOLVE_BATCH, ByEmail(batch)), |batch|);
    place < |batch| && batch[place] == unique[k] && reply.Ok? && value == reply.value[place].matched
  }

  lemma LaterIsOwn(core: Replies, call: nat, unique: seq<string>, k: nat, value: bool)
    requires RESOLVE_BATCH <= k < |unique|
    requires IsOwnAnswer(core, call + 1, unique[RESOLVE_BATCH..], k - RESOLVE_BATCH, value)
    ensures IsOwnAnswer(core, call, unique, k, value)
  {
    hide ByEmail, Checked;
    var rest, place := unique[RESOLVE_BATCH..], k / RESOLVE_BATCH;
    assert (k - RESOLVE_BATCH) / RESOLVE_BATCH == place - 1;
    assert rest[RESOLVE_BATCH * (place - 1)..] == unique[RESOLVE_BATCH * place..];
  }

  lemma {:induction false} AnswersStay(core: Replies, call: nat, unique: seq<string>, matched: map<string, bool>)
    requires NoneTwice(unique)
    ensures var r := AskInBatches(core, call, unique, matched);
            r.Ok? ==>
              && (forall a :: a in r.value <==> a in matched || a in unique)
              && (forall a | a in matched && a !in unique :: r.value[a] == matched[a])
    decreases |unique|
  {
    hide FirstBatch, WithAnswers, Checked, NoneTwice;
    if unique != [] {
      var batch := FirstBatch(unique);
      FirstBatchSplits(unique);
      var reply := Checked(core(call, ByEmail(batch)), |batch|);
      if reply.Ok? {
        AnswersAreOwn(matched, batch, reply.value);
        AnswersStay(core, call + 1, unique[|batch|..], WithAnswers(matched, batch, reply.value));
      }
    }
  }

  lemma AskingOnce(core: Replies, call: nat, unique: seq<string>, matched: map<string, bool>)
    requires unique != []
    ensures var batch := FirstBatch(unique);
            var reply := Checked(core(call, ByEmail(batch)), |batch|);
            && (reply.Err? ==> AskInBatches(core, call, unique, matched).Err?)
            && (reply.Ok? ==>
                  AskInBatches(core, call, unique, matched)
                  == AskInBatches(core, call + 1, unique[|batch|..], WithAnswers(matched, batch, reply.value)))
  {
    hide Checked, ByEmail, WithAnswers;
  }

  lemma FirstIsOwn(core: Replies, call: nat, unique: seq<string>, k: nat, items: seq<ResolvedItem>)
    requires var batch := FirstBatch(unique);
             k < |batch| && k < |unique| && Checked(core(call, ByEmail(batch)), |batch|) == Ok(items)
    ensures IsOwnAnswer(core, call, unique, k, items[k].matched)
  {
    hide Checked, ByEmail;
    assert k / RESOLVE_BATCH == 0 && k % RESOLVE_BATCH == k;
    assert unique[RESOLVE_BATCH * 0..] == unique;
  }

  lemma {:induction false} AnswersAreTheirOwn(core: Replies, call: nat, unique: seq<string>,
                                              matched: map<string, bool>, k: nat)
    requires NoneTwice(unique) && k < |unique|
    ensures var r := AskInBatches(core, call, unique, matched);
            r.Ok? ==> unique[k] in r.value && IsOwnAnswer(core, call, unique, k, r.value[unique[k]])
    decreases |unique|
  {
    hide WithAnswers, Checked, NoneTwice, ByEmail, AskInBatches, FirstBatch, IsOwnAnswer;
    var batch := FirstBatch(unique);
    FirstBatchSplits(unique);
    AskingOnce(core, call, unique, matched);
    var reply := Checked(core(call, ByEmail(batch)), |batch|);
    if reply.Ok? {
      var rest, now := unique[|batch|..], WithAnswers(matched, batch, reply.value);
      AnswersAreOwn(matched, batch, reply.value);
      AnswersStay(core, call + 1, rest, now);
      BatchIsWhole(unique);
      if k < |batch| {
        assert unique[k] == batch[k];
        FirstIsOwn(core, call, unique, k, reply.value);
      } else {
        AnswersAreTheirOwn(core, call + 1, rest, now, k - |batch|);
        var r := AskInBatches(core, call, unique, matched);
        if r.Ok? {
          LaterIsOwn(core, call, unique, k, r.value[unique[k]]);
        }
      }
    }
  }

  lemma BatchIsWhole(unique: seq<string>)
    ensures var batch := FirstBatch(unique);
            |batch| <= |unique| && batch == unique[..|batch|] && (|batch| < |unique| ==> |batch| == RESOLVE_BATCH)
  {
  }

  /** Whatever core says: given an answer, it holds exactly the addresses given,
      and says of each what core's item at its place said, in the answer to the
      call it was asked in. */
  lemma EachGetsItsOwn(core: Replies, call: nat, addresses: seq<string>)
    ensures var unique := Distinct(addresses);
            var r := AskInBatches(core, call, unique, map[]);
            r.Ok? ==>
              && (forall a :: a in r.value <==> IsGiven(addresses, a))
              && (forall k | 0 <= k < |unique| ::
                    unique[k] in r.value && IsOwnAnswer(core, call, unique, k, r.value[unique[k]]))
  {
    hide IsGiven, AskInBatches, NoneTwice, Distinct, IsOwnAnswer;
    DistinctExactly(addresses);
    var unique := Distinct(addresses);
    AnswersStay(core, call, unique, map[]);
    var r := AskInBatches(core, call, unique, map[]);
    if r.Ok? {
      forall k | 0 <= k < |unique|
        ensures unique[k] in r.value && IsOwnAnswer(core, call, unique, k, r.value[unique[k]])
      {
        AnswersAreTheirOwn(core, call, unique, map[], k);
      }
    }
  }

  // ---- Audience: who granted a purpose -------------------------------------

  datatype Item = Item(email: string, textVersion: string, withdrawUrl: string, renewalDue: bool)

  datatype Page = Page(items: Option<seq<Item>>, next: Option<string>)

  /** Core's answer to each page asked for, by its place and what it is after;
      None when the call failed. */
  type Pages = (nat, string) -> Option<Page>

  function Grants(items: seq<Item>): (r: seq<Item>)
    ensures |r| == |items|
  {
    seq(|items|, i requires 0 <= i < |items| => items[i].(email := Normalized(items[i].email)))
  }

  predicate HasAddresses(items: seq<Item>) {
    forall i | 0 <= i < |items| :: Normalized(items[i].email) != ""
  }

  /** Pages in turn, as core gave them: each asked for after the one before,
      every item with an address, and the last without a next. */
  predicate IsReading(core: Pages, page: nat, afters: seq<string>)
    decreases |afters|
  {
    && afters != []
    && IsPage(core(page, afters[0]))
    && var next := core(page, afters[0]).value.next;
      if |afters| == 1 then next.None?
      else
        next == Some(afters[1]) && afters[1] != "" && afters[1] != afters[0]
        && IsReading(core, page + 1, afters[1..])
  }

  predicate IsPage(p: Option<Page>) {
    p.Some? && p.value.items.Some? && HasAddresses(p.value.items.value)
  }

  function AllGrants(core: Pages, page: nat, afters: seq<string>): (r: seq<Item>)
    requires IsReading(core, page, afters)
    decreases |afters|
  {
    Grants(core(page, afters[0]).value.items.value)
    + if |afters| == 1 then [] else AllGrants(core, page + 1, afters[1..])
  }

  function PageError(core: Pages, page: nat, after: string): (r: Option<Error>) {
    var p := core(page, after);
    if p.None? then Some(CallFailed)
    else if p.value.items.None? then Some(NoItems)
    else if !HasAddresses(p.value.items.value) then Some(NoAddress)
    else if p.value.next.Some? && (p.value.next.value == "" || p.value.next.value == after) then Some(NoNextPage)
    else None
  }

  function ReadFrom(core: Pages, page: nat, after: string): (r: Result<seq<Item>, Error>)
    requires page <= MAX_AUDIENCE_PAGES
    decreases MAX_AUDIENCE_PAGES - page
  {
    if page == MAX_AUDIENCE_PAGES then Err(TooManyPages)
    else if PageError(core, page, after).Some? then Err(PageError(core, page, after).value)
    else
      var p := core(page, after).value;
      if p.next.None? then Ok(Grants(p.items.value))
      else
        match ReadFrom(core, page + 1, p.next.value)
        case Err(error) => Err(error)
        case Ok(rest) => Ok(Grants(p.items.value) + rest)
  }

  /** The pages asked for: up to the first that ends the reading. */
  function PagesAsked(core: Pages, page: nat, after: string): (r: seq<string>)
    requires page <= MAX_AUDIENCE_PAGES
    ensures |r| <= MAX_AUDIENCE_PAGES - page
    decreases MAX_AUDIENCE_PAGES - page
  {
    if page == MAX_AUDIENCE_PAGES then []
    else if PageError(core, page, after).Some? || core(page, after).value.next.None? then [after]
    else [after] + PagesAsked(core, page + 1, core(page, after).value.next.value)
  }

  /** An audience is read exactly when core's pages lead, one to the next and
      within the bound, to a last one; and it is then every grant of every one
      of them, in order. */
  lemma {:induction false} ReadExactly(core: Pages, page: nat, after: string, items: seq<Item>)
    requires page <= MAX_AUDIENCE_PAGES
    ensures ReadFrom(core, page, after) == Ok(items) <==>
              exists afters :: afters != [] && IsReading(core, page, afters) && afters[0] == after
                               && page + |afters| <= MAX_AUDIENCE_PAGES && AllGrants(core, page, afters) == items
  {
    hide IsReading, ReadFrom, AllGrants;
    if ReadFrom(core, page, after) == Ok(items) {
      var afters := FindReading(core, page, after, items);
    }
    if afters :| afters != [] && IsReading(core, page, afters) && afters[0] == after
                 && page + |afters| <= MAX_AUDIENCE_PAGES && AllGrants(core, page, afters) == items {
      ReadingIsRead(core, page, afters);
    }
  }

  lemma {:induction false} FindReading(core: Pages, page: nat, after: string, items: seq<Item>)
      returns (afters: seq<string>)
    requires page <= MAX_AUDIENCE_PAGES && ReadFrom(core, page, after) == Ok(items)
    ensures afters != [] && IsReading(core, page, afters) && afters[0] == after
    ensures page + |afters| <= MAX_AUDIENCE_PAGES && AllGrants(core, page, afters) == items
    decreases MAX_AUDIENCE_PAGES - page
  {
    hide HasAddresses, Grants;
    var p := core(page, after).value;
    if p.next.None? {
      afters := [after];
    } else {
      var rest := FindReading(core, page + 1, p.next.value, ReadFrom(core, page + 1, p.next.value).value);
      afters := [after] + rest;
      assert afters[1..] == rest;
    }
  }

  lemma {:induction false} ReadingIsRead(core: Pages, page: nat, afters: seq<string>)
    requires IsReading(core, page, afters) && page + |afters| <= MAX_AUDIENCE_PAGES
    ensures ReadFrom(core, page, afters[0]) == Ok(AllGrants(core, page, afters))
    decreases |afters|
  {
    hide HasAddresses, Grants;
    assert PageError(core, page, afters[0]).None?;
    if |afters| == 1 {
      assert AllGrants(core, page, afters) == Grants(core(page, afters[0]).value.items.value);
    } else {
      ReadingIsRead(core, page + 1, afters[1..]);
    }
  }

  // ---- The client ----------------------------------------------------------

  const REASONS: set<string> := {"opted_out", "inactive", "ambiguous"}

  datatype Decision = Decision(matched: bool, sub: string, allowed: bool, reason: string, unsubscribeUrl: string)

  const NOT_MATCHED := Decision(false, "", false, "", "")

  /** What is wrong with an answer about one recipient. */
  function Fault(item: ResolvedItem): (r: Option<Error>) {
    if !item.matched then None
    else if item.allowed then if item.unsubscribeUrl == "" || item.reason != "" then Some(NoLink) else None
    else if item.reason !in REASONS then Some(UnknownReason) else None
  }

  function DecisionOf(item: ResolvedItem): (r: Decision) {
    if !item.matched then NOT_MATCHED
    else Decision(true, item.sub, item.allowed, item.reason, if item.allowed then item.unsubscribeUrl else "")
  }

  /** A decision to send always has its link and no reason; one not to send has
      a reason core gives and no link. */
  predicate IsDecision(d: Decision) {
    if !d.matched then d == NOT_MATCHED
    else if d.allowed then d.unsubscribeUrl != "" && d.reason == ""
    else d.unsubscribeUrl == "" && d.reason in REASONS
  }

  method FindDistinct(addresses: seq<string>) returns (unique: seq<string>)
    ensures unique == Distinct(addresses)
  {
    hide Normalized;
    unique := [];
    var seen: set<string> := {};
    for i := 0 to |addresses|
      invariant unique == Distinct(addresses[..i])
      invariant forall a :: a in seen <==> a in unique
    {
      assert addresses[..i + 1][..i] == addresses[..i];
      var address := Normalized(addresses[i]);
      if address != "" && address !in seen {
        seen := seen + {address};
        unique := unique + [address];
      }
    }
    assert addresses[..|addresses|] == addresses;
  }

  method AddAnswers(known: map<string, bool>, batch: seq<string>, items: seq<ResolvedItem>)
      returns (matched: map<string, bool>)
    requires |items| == |batch|
    ensures matched == WithAnswers(known, batch, items)
  {
    matched := known;
    for i := 0 to |batch|
      invariant matched == WithAnswers(known, batch[..i], items[..i])
    {
      assert batch[..i + 1][..i] == batch[..i] && items[..i + 1][..i] == items[..i];
      matched := matched[batch[i] := items[i].matched];
    }
    assert batch[..|batch|] == batch && items[..|batch|] == items;
  }

  lemma BatchIsFirst(unique: seq<string>, start: nat)
    requires start < |unique|
    ensures var batch := unique[start..if start + RESOLVE_BATCH < |unique| then start + RESOLVE_BATCH else |unique|];
            batch == FirstBatch(unique[start..]) && 1 <= |batch| <= RESOLVE_BATCH
            && unique[start..][|batch|..] == unique[start + |batch|..]
  {
  }

  lemma AskingUnrolls(core: Replies, call: nat, unique: seq<string>, matched: map<string, bool>)
    requires unique != []
    ensures var batch := FirstBatch(unique);
            var reply := Checked(core(call, ByEmail(batch)), |batch|);
            && |batch| <= |unique|
            && AskInBatches(core, call, unique, matched) ==
                 (if reply.Err? then Err(reply.error)
                  else AskInBatches(core, call + 1, unique[|batch|..], WithAnswers(matched, batch, reply.value)))
            && (forall asked: seq<seq<Recipient>> :: asked + Asked(core, call, unique) ==
                 asked + [ByEmail(batch)] + if reply.Err? then [] else Asked(core, call + 1, unique[|batch|..]))
  {
    hide Checked, WithAnswers, ByEmail;
    forall asked: seq<seq<Recipient>>
      ensures var batch := FirstBatch(unique);
              var reply := Checked(core(call, ByEmail(batch)), |batch|);
              asked + Asked(core, call, unique) ==
                asked + [ByEmail(batch)] + if reply.Err? then [] else Asked(core, call + 1, unique[|batch|..])
    {
    }
  }

  lemma NothingLeft(core: Replies, call: nat, matched: map<string, bool>)
    ensures AskInBatches(core, call, [], matched) == Ok(matched) && Asked(core, call, []) == []
  {
  }

  class Client {
    const replies: Replies
    const pages: Pages
    var asked: seq<seq<Recipient>>
    var pagesAsked: seq<string>

    constructor (replies: Replies, pages: Pages)
      ensures this.replies == replies && this.pages == pages && asked == [] && pagesAsked == []
    {
      this.replies, this.pages := replies, pages;
      asked, pagesAsked := [], [];
    }

    method ResolveItems(recipients: seq<Recipient>) returns (r: Result<seq<ResolvedItem>, Error>)
      modifies this`asked
      ensures 1 <= |recipients| <= RESOLVE_BATCH ==>
                asked == old(asked) + [recipients] && r == Checked(replies(|old(asked)|, recipients), |recipients|)
      ensures !(1 <= |recipients| <= RESOLVE_BATCH) ==> asked == old(asked) && r == Err(BatchSize)
    {
      if |recipients| == 0 || |recipients| > RESOLVE_BATCH {
        return Err(BatchSize);
      }
      var reply := replies(|asked|, recipients);
      asked := asked + [recipients];
      return Checked(reply, |recipients|);
    }

    /** One decision per recipient, in the order asked: given exactly when core
        answered about each of them without fault. */
    method Resolve(recipients: seq<Recipient>) returns (r: Result<seq<Decision>, Error>)
      modifies this`asked
      ensures !(1 <= |recipients| <= RESOLVE_BATCH) ==> r == Err(BatchSize) && asked == old(asked)
      ensures 1 <= |recipients| <= RESOLVE_BATCH ==>
                var answer := Checked(replies(|old(asked)|, recipients), |recipients|);
                && asked == old(asked) + [recipients]
                && (r.Ok? <==> answer.Ok? && forall i | 0 <= i < |recipients| :: Fault(answer.value[i]).None?)
                && (r.Ok? ==> |r.value| == |recipients|
                              && forall i | 0 <= i < |recipients| ::
                                 r.value[i] == DecisionOf(answer.value[i]) && IsDecision(r.value[i]))
    {
      var items := ResolveItems(recipients);
      if items.Err? {
        return Err(items.error);
      }
      var decisions: seq<Decision> := [];
      for i := 0 to |items.value|
        invariant |decisions| == i
        invariant forall k | 0 <= k < i :: Fault(items.value[k]).None? && decisions[k] == DecisionOf(items.value[k])
      {
        var got := items.value[i];
        if !got.matched {
          decisions := decisions + [NOT_MATCHED];
        } else if got.allowed && (got.unsubscribeUrl == "" || got.reason != "") {
          return Err(NoLink);
        } else if got.allowed {
          decisions := decisions + [Decision(true, got.sub, true, got.reason, got.unsubscribeUrl)];
        } else if got.reason !in REASONS {
          return Err(UnknownReason);
        } else {
          decisions := decisions + [Decision(true, got.sub, false, got.reason, "")];
        }
      }
      return Ok(decisions);
    }

    /** Which of the addresses are an account's. */
    method Matched(addresses: seq<string>) returns (r: Result<map<string, bool>, Error>)
      modifies this`asked
      ensures r == AskInBatches(replies, |old(asked)|, Distinct(addresses), map[])
      ensures asked == old(asked) + Asked(replies, |old(asked)|, Distinct(addresses))
    {
      hide Checked, Distinct, WithAnswers, FirstBatch, AskInBatches, Asked, ByEmail;
      var unique := FindDistinct(addresses);
      var matched: map<string, bool> := map[];
      var start := 0;
      assert unique[0..] == unique;
      while start < |unique|
        invariant 0 <= start <= |unique|
        invariant AskInBatches(replies, |old(asked)|, unique, map[])
                  == AskInBatches(replies, |asked|, unique[start..], matched)
        invariant old(asked) + Asked(replies, |old(asked)|, unique) == asked + Asked(replies, |asked|, unique[start..])
      {
        var batch := unique[start..if start + RESOLVE_BATCH < |unique| then start + RESOLVE_BATCH else |unique|];
        BatchIsFirst(unique, start);
        AskingUnrolls(replies, |asked|, unique[start..], matched);
        var results := ResolveItems(ByEmail(batch));
        if results.Err? {
          return Err(results.error);
        }
        matched := AddAnswers(matched, batch, results.value);
        start := start + |batch|;
      }
      NothingLeft(replies, |asked|, matched);
      return Ok(matched);
    }

    /** Who granted the purpose: every grant of every page, or no audience. */
    method Audience() returns (r: Result<seq<Item>, Error>)
      modifies this`pagesAsked
      ensures r == ReadFrom(pages, 0, "")
      ensures pagesAsked == old(pagesAsked) + PagesAsked(pages, 0, "")
    {
      hide HasAddresses, Grants, ReadFrom, Prefixed, PagesAsked;
      var items: seq<Item>, after := [], "";
      PrefixedNothing(ReadFrom(pages, 0, ""));
      for page := 0 to MAX_AUDIENCE_PAGES
        invariant pagesAsked + PagesAsked(pages, page, after) == old(pagesAsked) + PagesAsked(pages, 0, "")
        invariant ReadFrom(pages, 0, "") == Prefixed(items, ReadFrom(pages, page, after))
      {
        AskingForPages(pages, page, after, pagesAsked);
        pagesAsked := pagesAsked + [after];
        ReadingUnrolls(pages, page, after, items);
        var answer := pages(page, after);
        if answer.None? {
          return Err(CallFailed);
        }
        if answer.value.items.None? {
          return Err(NoItems);
        }
        var found := PageGrants(answer.value.items.value);
        if found.Err? {
          return Err(found.error);
        }
        if answer.value.next.None? {
          return Ok(items + found.value);
        }
        if answer.value.next.value == "" || answer.value.next.value == after {
          return Err(NoNextPage);
        }
        items := items + found.value;
        after := answer.value.next.value;
      }
      TooFar(pages, after, items);
      NoPagesAsked(pages, after);
      return Err(TooManyPages);
    }
  }

  function Prefixed(items: seq<Item>, r: Result<seq<Item>, Error>): (p: Result<seq<Item>, Error>) {
    match r
    case Err(error) => Err(error)
    case Ok(rest) => Ok(items + rest)
  }

  lemma PrefixedNothing(r: Result<seq<Item>, Error>)
    ensures Prefixed([], r) == r
  {
    if r.Ok? {
      assert [] + r.value == r.value;
    }
  }

  lemma PrefixedTwice(a: seq<Item>, b: seq<Item>, r: Result<seq<Item>, Error>)
    ensures Prefixed(a, Prefixed(b, r)) == Prefixed(a + b, r)
  {
    if r.Ok? {
      assert a + (b + r.value) == (a + b) + r.value;
    }
  }

  lemma ReadingUnrolls(core: Pages, page: nat, after: string, items: seq<Item>)
    requires page < MAX_AUDIENCE_PAGES
    ensures var p := core(page, after);
            Prefixed(items, ReadFrom(core, page, after)) ==
              if PageError(core, page, after).Some? then Err(PageError(core, page, after).value)
              else if p.value.next.None? then Ok(items + Grants(p.value.items.value))
              else Prefixed(items + Grants(p.value.items.value), ReadFrom(core, page + 1, p.value.next.value))
  {
    hide HasAddresses, Grants;
    var p := core(page, after);
    if PageError(core, page, after).None? && p.value.next.Some? {
      PrefixedTwice(items, Grants(p.value.items.value), ReadFrom(core, page + 1, p.value.next.value));
    }
  }

  lemma AskingForPages(core: Pages, page: nat, after: string, asked: seq<string>)
    requires page < MAX_AUDIENCE_PAGES
    ensures asked + PagesAsked(core, page, after) ==
              asked + [after] + if PageError(core, page, after).Some? || core(page, after).value.next.None? then []
                                else PagesAsked(core, page + 1, core(page, after).value.next.value)
  {
    hide PageError;
  }

  lemma NoPagesAsked(core: Pages, after: string)
    ensures PagesAsked(core, MAX_AUDIENCE_PAGES, after) == []
  {
  }

  lemma TooFar(core: Pages, after: string, items: seq<Item>)
    ensures Prefixed(items, ReadFrom(core, MAX_AUDIENCE_PAGES, after)) == Err(TooManyPages)
  {
  }

  method PageGrants(items: seq<Item>) returns (r: Result<seq<Item>, Error>)
    ensures r == if HasAddresses(items) then Ok(Grants(items)) else Err(NoAddress)
  {
    hide Normalized;
    var found: seq<Item> := [];
    for i := 0 to |items|
      invariant HasAddresses(items[..i]) && found == Grants(items[..i])
    {
      if Normalized(items[i].email) == "" {
        return Err(NoAddress);
      }
      found := found + [items[i].(email := Normalized(items[i].email))];
      assert items[..i + 1] == items[..i] + [items[i]];
    }
    assert items[..|items|] == items;
    return Ok(found);
  }
}
