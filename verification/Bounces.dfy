// Recording what a report says of a mail SkyMail sent, and suppressing an
// address one permanent failure was reported for.
module Bounces {
  import opened Options
  import opened Text
  import opened Dsn

  datatype Status = Pending | Processing | Sent | Failed

  datatype QueueRow = QueueRow(
    channel: string,
    status: Option<Status>,
    recipientEmail: string,
    recipientSub: Option<string>,
    sentAt: Option<int>)

  datatype Source = FromReport | FromRelay

  datatype Bounce = Bounce(
    queueId: Uuid,
    source: Source,
    kind: Kind,
    action: string,
    status: Option<string>,
    smtpCode: Option<nat>,
    asCode: Option<string>,
    matched: bool,
    ndr: Option<string>,
    receivedAt: int)

  datatype Suppression = Suppression(
    recipientSub: Option<string>,
    source: Source,
    reason: string,
    count: nat,
    lastQueueId: Uuid)

  datatype Db = Db(queue: map<Uuid, QueueRow>, bounces: seq<Bounce>, suppressions: map<string, Suppression>)

  datatype Outcome =
    | NotADsn | Unmatched | HardFailure | SoftFailure | Delayed | OtherRecipient | Duplicate | ReportsNoFailure

  datatype ReadError = Unreadable | NoId

  datatype Ndr = Ndr(id: string, receivedAt: Option<int>, mime: Mime)

  /** The hash a report's id is kept as. */
  type Hash = string -> string

  /** How much earlier than the row was sent a report may say it came, seconds. */
  const SENT_AT_SLACK := 120

  // ---- Which block ---------------------------------------------------------

  predicate Reports(r: Recipient) {
    Classify(r) != NoFailure
  }

  predicate Names(r: Recipient, address: string) {
    r.finalRecipient == address || r.originalRecipient == address
  }

  function First(rs: seq<Recipient>, want: Recipient -> bool): (r: Option<Recipient>)
    ensures r.Some? ==> exists i | 0 <= i < |rs| :: rs[i] == r.value && want(rs[i])
                                                      && forall j | 0 <= j < i :: !want(rs[j])
    ensures r.None? ==> forall i | 0 <= i < |rs| :: !want(rs[i])
  {
    if rs == [] then None
    else if want(rs[0]) then
      assert rs[0] == rs[0] && want(rs[0]);
      Some(rs[0])
    else
      var rest := First(rs[1..], want);
      assert forall j | 0 <= j < |rs[1..]| :: rs[1..][j] == rs[j + 1];
      assert rest.Some? ==> exists i | 0 <= i < |rs| :: rs[i] == rest.value && want(rs[i])
                                                              && forall j | 0 <= j < i :: !want(rs[j]) by {
        if rest.Some? {
          var i :| 0 <= i < |rs[1..]| && rs[1..][i] == rest.value && want(rs[1..][i])
                   && forall j | 0 <= j < i :: !want(rs[1..][j]);
          assert rs[i + 1] == rest.value && forall j | 0 <= j < i + 1 :: !want(rs[j]);
        }
      }
      rest
  }

  /** The block a report says of an address: the first failure or delay naming
      it, else the first of any address; and whether it names it. */
  function Pick(rs: seq<Recipient>, address: string): (r: Option<(Recipient, bool)>)
    ensures r.Some? ==> r.value.0 in rs && Reports(r.value.0)
    ensures r.Some? && r.value.1 ==> Names(r.value.0, address)
    ensures r.Some? && r.value.1 ==>
              exists i | 0 <= i < |rs| ::
                rs[i] == r.value.0 && forall j | 0 <= j < i :: !(Reports(rs[j]) && Names(rs[j], address))
    ensures r.Some? && !r.value.1 ==> forall i | 0 <= i < |rs| && Reports(rs[i]) :: !Names(rs[i], address)
    ensures r.Some? && !r.value.1 ==>
              exists i | 0 <= i < |rs| :: rs[i] == r.value.0 && forall j | 0 <= j < i :: !Reports(rs[j])
    ensures r.None? ==> forall i | 0 <= i < |rs| :: !Reports(rs[i])
  {
    match First(rs, r => Reports(r) && Names(r, address))
    case Some(block) => Some((block, true))
    case None =>
      match First(rs, Reports)
      case Some(block) => Some((block, false))
      case None => None
  }

  method PickBlock(rs: seq<Recipient>, address: string) returns (picked: Option<(Recipient, bool)>)
    ensures picked == Pick(rs, address)
  {
    var naming := r => Reports(r) && Names(r, address);
    picked := None;
    for i := 0 to |rs|
      invariant First(rs, naming) == First(rs[i..], naming)
      invariant First(rs, Reports) == if picked.Some? then Some(picked.value.0) else First(rs[i..], Reports)
      invariant picked.Some? ==> !picked.value.1
    {
      assert rs[i..][1..] == rs[i + 1..];
      if Classify(rs[i]) == NoFailure {
        continue;
      }
      if rs[i].finalRecipient == address || rs[i].originalRecipient == address {
        return Some((rs[i], true));
      }
      if picked.None? {
        picked := Some((rs[i], false));
      }
    }
  }

  // ---- Recording -----------------------------------------------------------

  /** LIKE '_%@_%': an '@' with something before and after it. */
  predicate IsMailable(address: string) {
    exists i | 1 <= i < |address| - 1 :: address[i] == '@'
  }

  /** What a suppression keeps of a report: its codes. */
  function ReasonCode(status: Option<string>, smtpCode: Option<nat>, asCode: Option<string>): (r: string) {
    var code := if status.Some? then status.value else if smtpCode.Some? then Digits(smtpCode.value) else "";
    TrimSpace(if asCode.Some? then code + " AS(" + asCode.value + ")" else code)
  }

  /** SuppressQueueRowAddress: the row's own address; one suppressed before is
      counted again and keeps the subject it had when the row names none. */
  function Suppress(list: map<string, Suppression>, row: QueueRow, id: Uuid, source: Source, reason: string)
    : (r: map<string, Suppression>)
  {
    if row.channel != "email" || !IsMailable(Btrim(row.recipientEmail)) then list
    else
      var address := Lower(Btrim(row.recipientEmail));
      var before := if address in list then Some(list[address]) else None;
      list[address := Suppression(
        if row.recipientSub.None? && before.Some? then before.value.recipientSub else row.recipientSub,
        source, reason, if before.Some? then before.value.count + 1 else 1, id)]
  }

  function MatchedAddress(row: QueueRow): (r: string) {
    Lower(TrimSpace(row.recipientEmail))
  }

  /** A row a report can be about: e-mail, sent, before the report came, and
      not cleared. */
  predicate IsAnswerable(row: QueueRow, received: int) {
    row.channel == "email" && row.status == Some(Sent) && row.sentAt.Some?
    && received >= row.sentAt.value - SENT_AT_SLACK && MatchedAddress(row) != ""
  }

  predicate IsRecorded(db: Db, hash: string) {
    exists i | 0 <= i < |db.bounces| :: db.bounces[i].ndr == Some(hash)
  }

  function BounceOf(id: Uuid, block: Recipient, matched: bool, hash: string, received: int): (b: Bounce) {
    Bounce(id, FromReport, Classify(block), block.action,
           if block.status != "" then Some(block.status) else None,
           if block.smtpCode != 0 then Some(block.smtpCode) else None,
           if block.asCode != "" then Some(block.asCode) else None,
           matched, Some(hash), received)
  }

  function Record(db: Db, id: Uuid, hash: string, received: int, recipients: seq<Recipient>): (r: (Db, Outcome)) {
    if id !in db.queue || !IsAnswerable(db.queue[id], received) then (db, Unmatched)
    else
      var row := db.queue[id];
      match Pick(recipients, MatchedAddress(row))
      case None => (db, ReportsNoFailure)
      case Some((block, matched)) =>
        if IsRecorded(db, hash) then (db, Duplicate)
        else
          var b := BounceOf(id, block, matched, hash, received);
          var recorded := db.(bounces := db.bounces + [b]);
          if !matched then (recorded, OtherRecipient)
          else
            match b.kind
            case Hard =>
              (recorded.(suppressions := Suppress(db.suppressions, row, id, FromReport, ReasonOf(b))), HardFailure)
            case Delay => (recorded, Delayed)
            case _ => (recorded, SoftFailure)
  }

  function ReasonOf(b: Bounce): (r: string) {
    ReasonCode(b.status, b.smtpCode, b.asCode)
  }

  /** Process: what one message from the mailbox does. */
  function Process(db: Db, fqdn: string, sha: Hash, ndr: Ndr, now: int): (r: (Db, Result<Outcome, ReadError>)) {
    match Parse(ndr.mime)
    case NotAReport => (db, Ok(NotADsn))
    case CannotBeRead => (db, Err(Unreadable))
    case Reads(report) =>
      match ReportQueueId(report, fqdn)
      case None => (db, Ok(Unmatched))
      case Some(id) =>
        var own := TrimSpace(ndr.id);
        var name := if own == "" then report.messageId else own;
        if name == "" then (db, Err(NoId))
        else
          var received := if ndr.receivedAt.Some? then ndr.receivedAt.value else now;
          var (after, outcome) := Record(db, id, sha(name), received, report.recipients);
          (after, Ok(outcome))
  }

  /** The store a report is recorded in, a transaction at a time. */
  class BounceStore {
    var db: Db

    constructor (db: Db)
      ensures this.db == db
    {
      this.db := db;
    }

    method RecordReport(id: Uuid, hash: string, received: int, recipients: seq<Recipient>) returns (outcome: Outcome)
      modifies this
      ensures (db, outcome) == Record(old(db), id, hash, received, recipients)
    {
      hide Lower, TrimSpace, Btrim, IsMailable, ReasonCode, Classify, Pick, IsRecorded;
      if id !in db.queue {
        return Unmatched;
      }
      var row := db.queue[id];
      var address := Lower(TrimSpace(row.recipientEmail));
      if row.channel != "email" || row.status != Some(Sent) || row.sentAt.None?
         || received < row.sentAt.value - SENT_AT_SLACK || address == "" {
        return Unmatched;
      }
      var picked := PickBlock(recipients, address);
      if picked.None? {
        return ReportsNoFailure;
      }
      var (block, matched) := picked.value;
      if IsRecorded(db, hash) {
        return Duplicate;
      }
      var b := BounceOf(id, block, matched, hash, received);
      db := db.(bounces := db.bounces + [b]);
      if !matched {
        return OtherRecipient;
      }
      if b.kind == Hard {
        db := db.(suppressions := Suppress(db.suppressions, row, id, FromReport, ReasonOf(b)));
        return HardFailure;
      }
      return if b.kind == Delay then Delayed else SoftFailure;
    }

    method Handle(fqdn: string, sha: Hash, ndr: Ndr, now: int, commit: bool) returns (r: Result<Outcome, ReadError>)
      modifies this
      ensures r == Process(old(db), fqdn, sha, ndr, now).1
      ensures db == if commit then Process(old(db), fqdn, sha, ndr, now).0 else old(db)
    {
      hide ReadStatus, ReportQueueId, Record;
      if ndr.mime.NotDsn? {
        return Ok(NotADsn);
      }
      if ndr.mime.Garbled? {
        return Err(Unreadable);
      }
      var read := ReadStatusPart(ndr.mime.status);
      if read.Err? {
        return Err(Unreadable);
      }
      var report := ReportOf(ndr.mime.headers, read.value);
      var id := FindQueueId(report, fqdn);
      if id.None? {
        return Ok(Unmatched);
      }
      var name := TrimSpace(ndr.id);
      if name == "" {
        name := report.messageId;
      }
      if name == "" {
        return Err(NoId);
      }
      var received := if ndr.receivedAt.Some? then ndr.receivedAt.value else now;
      var before := db;
      var outcome := RecordReport(id.value, sha(name), received, report.recipients);
      if !commit {
        db := before;
      }
      return Ok(outcome);
    }

    /** Evaluate: what Process would do now, changing nothing. */
    method Evaluate(fqdn: string, sha: Hash, ndr: Ndr, now: int) returns (r: Result<Outcome, ReadError>)
      modifies this
      ensures r == Process(old(db), fqdn, sha, ndr, now).1
      ensures db == old(db)
    {
      r := Handle(fqdn, sha, ndr, now, false);
    }
  }

  // ---- What every run of reports keeps -------------------------------------

  datatype Arrival = Arrival(ndr: Ndr, now: int)

  function ProcessAll(db: Db, fqdn: string, sha: Hash, arrivals: seq<Arrival>): (r: Db) {
    if arrivals == [] then db
    else
      var last := arrivals[|arrivals| - 1];
      Process(ProcessAll(db, fqdn, sha, arrivals[..|arrivals| - 1]), fqdn, sha, last.ndr, last.now).0
  }

  /** A suppression list rebuilt from recorded bounces alone: one step for each
      permanent failure of the row's own address. */
  function Replay(list: map<string, Suppression>, queue: map<Uuid, QueueRow>, bounces: seq<Bounce>)
    : (r: map<string, Suppression>)
  {
    if bounces == [] then list
    else
      var b := bounces[|bounces| - 1];
      var before := Replay(list, queue, bounces[..|bounces| - 1]);
      if Suppresses(b) && b.queueId in queue then Suppress(before, queue[b.queueId], b.queueId, b.source, ReasonOf(b))
      else before
  }

  predicate Suppresses(b: Bounce) {
    b.kind == Hard && b.matched
  }

  /** A bounce a report can have left: about a row that was sent and can be
      answered, with the report's id kept. */
  predicate IsReported(queue: map<Uuid, QueueRow>, b: Bounce) {
    b.source == FromReport && b.ndr.Some? && b.kind != NoFailure
    && b.queueId in queue && IsAnswerable(queue[b.queueId], b.receivedAt)
  }

  predicate RecordedOnce(bounces: seq<Bounce>) {
    forall i, j | 0 <= i < j < |bounces| && bounces[i].ndr.Some? :: bounces[i].ndr != bounces[j].ndr
  }

  /** After any reports: no mail changed; the bounces before are still there,
      and each new one is of a report about a mail that was sent; every report
      is recorded at most once; and the suppressions are exactly those before
      and what the new bounces tell. */
  predicate Follows(before: Db, after: Db) {
    && after.queue == before.queue
    && before.bounces <= after.bounces
    && (forall i | |before.bounces| <= i < |after.bounces| :: IsReported(after.queue, after.bounces[i]))
    && RecordedOnce(after.bounces)
    && after.suppressions == Replay(before.suppressions, before.queue, after.bounces[|before.bounces|..])
  }

  lemma {:induction false} EveryRunFollows(db: Db, fqdn: string, sha: Hash, arrivals: seq<Arrival>)
    requires RecordedOnce(db.bounces)
    ensures Follows(db, ProcessAll(db, fqdn, sha, arrivals))
  {
    if arrivals != [] {
      var before := ProcessAll(db, fqdn, sha, arrivals[..|arrivals| - 1]);
      EveryRunFollows(db, fqdn, sha, arrivals[..|arrivals| - 1]);
      OneReportFollows(db, before, fqdn, sha, arrivals[|arrivals| - 1]);
    }
  }

  lemma OneReportFollows(db: Db, s: Db, fqdn: string, sha: Hash, a: Arrival)
    requires Follows(db, s)
    ensures Follows(db, Process(s, fqdn, sha, a.ndr, a.now).0)
  {
    hide Process, Suppress, ReasonOf, IsAnswerable;
    var t := Process(s, fqdn, sha, a.ndr, a.now).0;
    if t != s {
      var b := AddsABounce(s, fqdn, sha, a);
      var added := t.bounces[|db.bounces|..];
      assert added == s.bounces[|db.bounces|..] + [b];
      assert added[..|added| - 1] == s.bounces[|db.bounces|..];
    }
  }

  /** A report that changes anything adds one bounce not recorded before, and
      suppresses by that bounce. */
  lemma AddsABounce(s: Db, fqdn: string, sha: Hash, a: Arrival) returns (b: Bounce)
    requires Process(s, fqdn, sha, a.ndr, a.now).0 != s
    ensures var t := Process(s, fqdn, sha, a.ndr, a.now).0;
            && t.queue == s.queue && t.bounces == s.bounces + [b]
            && IsReported(s.queue, b) && !IsRecorded(s, b.ndr.value)
            && t.suppressions == if Suppresses(b)
               then Suppress(s.suppressions, s.queue[b.queueId], b.queueId, b.source, ReasonOf(b))
                                 else s.suppressions
  {
    hide ReportQueueId, Parse, Pick, TrimSpace, MatchedAddress, Suppress, ReasonOf, Classify, IsRecorded;
    b := Process(s, fqdn, sha, a.ndr, a.now).0.bounces[|s.bounces|];
  }

  /** How many of some bounces suppress an address. */
  function Failures(queue: map<Uuid, QueueRow>, bounces: seq<Bounce>, address: string): (n: nat) {
    if bounces == [] then 0
    else
      var b := bounces[|bounces| - 1];
      Failures(queue, bounces[..|bounces| - 1], address) + if FailsAt(queue, b, address) then 1 else 0
  }

  predicate FailsAt(queue: map<Uuid, QueueRow>, b: Bounce, address: string) {
    Suppresses(b) && b.queueId in queue && queue[b.queueId].channel == "email"
    && IsMailable(Btrim(queue[b.queueId].recipientEmail)) && Lower(Btrim(queue[b.queueId].recipientEmail)) == address
  }

  /** What a replayed list holds: an address is on it exactly when it was
      before or some bounce is a permanent failure of it; it counts one for
      each; and a new one's last queue row and codes are a failure's. */
  lemma {:induction false} ReplayExactly(list: map<string, Suppression>, queue: map<Uuid, QueueRow>,
                                         bounces: seq<Bounce>, address: string)
    ensures var n, r := Failures(queue, bounces, address), Replay(list, queue, bounces);
            && (address in r <==> address in list || n > 0)
            && (address in r ==> r[address].count == n + if address in list then list[address].count else 0)
            && (n == 0 && address in r ==> r[address] == list[address])
            && (n > 0 ==> exists i | 0 <= i < |bounces| ::
                  FailsAt(queue, bounces[i], address) && r[address].lastQueueId == bounces[i].queueId
                  && r[address].reason == ReasonOf(bounces[i]))
  {
    hide Lower, Btrim, IsMailable, ReasonCode;
    if bounces != [] {
      var b, before := bounces[|bounces| - 1], bounces[..|bounces| - 1];
      ReplayExactly(list, queue, before, address);
      if FailsAt(queue, b, address) {
        assert bounces[|bounces| - 1] == b;
      } else if Failures(queue, before, address) > 0 {
        var i :| 0 <= i < |before| && FailsAt(queue, before[i], address)
                 && Replay(list, queue, before)[address].lastQueueId == before[i].queueId
                 && Replay(list, queue, before)[address].reason == ReasonOf(before[i]);
        assert bounces[i] == before[i];
      }
    }
  }

  /** A block whose own fields say that mail to an address failed for good: its
      Action, its Status (or its Diagnostic-Code's) and an address it names. */
  predicate Accuses(block: Fields, address: string) {
    var diagnostic := DiagnosticOf(Field(block, "Diagnostic-Code"));
    var status := ChosenStatus(FirstWord(Field(block, "Status")), diagnostic.code);
    && Lower(FirstWord(Field(block, "Action"))) == "failed"
    && (RecipientAddressStatus(status) || (status == "5.4.1" && diagnostic.asCode == EXCHANGE_RECIPIENT_UNKNOWN))
    && (AddressField(Field(block, "Final-Recipient")) == address
       || AddressField(Field(block, "Original-Recipient")) == address)
  }

  lemma HardBlockAccuses(block: Fields, address: string)
    ensures Classify(RecipientOf(block)) == Hard && Names(RecipientOf(block), address) <==> Accuses(block, address)
  {
    hide AddressField, ChosenStatus, DiagnosticOf, FirstWord, RecipientAddressStatus;
  }

  /** A report that tells a bounce: it names the bounce's row, and one of its
      blocks accuses that row's address with the bounce's codes. */
  predicate Tells(a: Arrival, fqdn: string, queue: map<Uuid, QueueRow>, b: Bounce) {
    && Parse(a.ndr.mime).Reads?
    && ReportQueueId(Parse(a.ndr.mime).report, fqdn) == Some(b.queueId) && b.queueId in queue
    && var blocks := ReadBlocks(a.ndr.mime.status.input, []).value;
      exists i | 0 <= i < |blocks| ::
        Accuses(blocks[i], MatchedAddress(queue[b.queueId])) && CarriesCodes(b, RecipientOf(blocks[i]))
  }

  predicate CarriesCodes(b: Bounce, r: Recipient) {
    b.status == (if r.status != "" then Some(r.status) else None)
    && b.smtpCode == (if r.smtpCode != 0 then Some(r.smtpCode) else None)
    && b.asCode == (if r.asCode != "" then Some(r.asCode) else None)
  }

  lemma RecordedBlock(s: Db, id: Uuid, hash: string, received: int, recipients: seq<Recipient>, b: Bounce)
    returns (r: Recipient)
    requires Record(s, id, hash, received, recipients).0.bounces == s.bounces + [b] && Suppresses(b)
    ensures id in s.queue && r in recipients && Classify(r) == Hard && Names(r, MatchedAddress(s.queue[id]))
    ensures b.queueId == id && CarriesCodes(b, r)
  {
    hide MatchedAddress, Classify, Suppress, ReasonOf, IsRecorded;
    assert b == Record(s, id, hash, received, recipients).0.bounces[|s.bounces|];
    r := Pick(recipients, MatchedAddress(s.queue[id])).value.0;
  }

  lemma ProcessRecords(s: Db, fqdn: string, sha: Hash, a: Arrival, b: Bounce)
    returns (id: Uuid, hash: string, received: int, recipients: seq<Recipient>)
    requires Process(s, fqdn, sha, a.ndr, a.now).0.bounces == s.bounces + [b]
    ensures Parse(a.ndr.mime).Reads? && ReportQueueId(Parse(a.ndr.mime).report, fqdn) == Some(id)
    ensures recipients == Parse(a.ndr.mime).report.recipients
    ensures Record(s, id, hash, received, recipients).0.bounces == s.bounces + [b]
  {
    hide ReportQueueId, Record, TrimSpace, Parse;
    assert |s.bounces + [b]| != |s.bounces|;
    var report := Parse(a.ndr.mime).report;
    id := ReportQueueId(report, fqdn).value;
    var own := TrimSpace(a.ndr.id);
    hash := sha(if own == "" then report.messageId else own);
    received := if a.ndr.receivedAt.Some? then a.ndr.receivedAt.value else a.now;
    recipients := report.recipients;
  }

  lemma ReadsItsStatus(m: Mime)
    requires Parse(m).Reads?
    ensures m.Delivery? && ReadStatus(m.status) == Ok(Parse(m).report.recipients)
  {
    hide ReadStatus;
  }

  lemma NewBounceIsTold(s: Db, fqdn: string, sha: Hash, a: Arrival, b: Bounce)
    requires Process(s, fqdn, sha, a.ndr, a.now).0.bounces == s.bounces + [b] && Suppresses(b)
    ensures Tells(a, fqdn, s.queue, b)
  {
    hide ReportQueueId, Record, Process, Parse, ReadStatus, ReadBlocks, RecipientOf, Accuses, CarriesCodes,
      MatchedAddress, Suppresses, Classify, Names;
    var id, hash, received, recipients := ProcessRecords(s, fqdn, sha, a, b);
    ReadsItsStatus(a.ndr.mime);
    var r := RecordedBlock(s, id, hash, received, recipients, b);
    var blocks, i := AccusingBlock(a.ndr.mime.status, r, MatchedAddress(s.queue[id]));
    assert Accuses(blocks[i], MatchedAddress(s.queue[id])) && CarriesCodes(b, RecipientOf(blocks[i]));
  }

  lemma AccusingBlock(status: StatusPart, r: Recipient, address: string) returns (blocks: seq<Fields>, i: nat)
    requires ReadStatus(status).Ok? && r in ReadStatus(status).value && Classify(r) == Hard && Names(r, address)
    ensures ReadBlocks(status.input, []) == Ok(blocks) && i < |blocks| && r == RecipientOf(blocks[i])
            && Accuses(blocks[i], address)
  {
    hide ReadBlocks, RecipientOf, RecipientsOf, Accuses, Classify;
    blocks := ReadBlocks(status.input, []).value;
    RecipientIsABlock(blocks, r);
    i :| 0 <= i < |blocks| && IsRecipients(blocks, i) && r == RecipientOf(blocks[i]);
    HardBlockAccuses(blocks[i], address);
  }

  /** Every permanent failure of the row's own address that a run records was
      told by one of its reports. */
  lemma {:induction false} FailuresAreTold(db: Db, fqdn: string, sha: Hash, arrivals: seq<Arrival>, i: nat)
    requires RecordedOnce(db.bounces)
    requires |db.bounces| <= i < |ProcessAll(db, fqdn, sha, arrivals).bounces|
    requires Suppresses(ProcessAll(db, fqdn, sha, arrivals).bounces[i])
    ensures exists k | 0 <= k < |arrivals| ::
            Tells(arrivals[k], fqdn, db.queue, ProcessAll(db, fqdn, sha, arrivals).bounces[i])
  {
    hide Process, Tells, Follows, Suppresses, RecordedOnce, ProcessAll;
    NothingProcessed(db, fqdn, sha);
    var init, last := arrivals[..|arrivals| - 1], arrivals[|arrivals| - 1];
    var before := ProcessAll(db, fqdn, sha, init);
    LastProcessed(db, fqdn, sha, arrivals);
    EveryRunFollows(db, fqdn, sha, init);
    FollowsKeepsQueue(db, before);
    var added := AddsAtMostOne(before, fqdn, sha, last);
    var b := (before.bounces + added)[i];
    if i < |before.bounces| {
      FailuresAreTold(db, fqdn, sha, init, i);
      var k :| 0 <= k < |init| && Tells(init[k], fqdn, db.queue, before.bounces[i]);
      assert Tells(arrivals[k], fqdn, db.queue, b);
    } else {
      NewBounceIsTold(before, fqdn, sha, last, b);
      assert Tells(arrivals[|arrivals| - 1], fqdn, db.queue, b);
    }
  }

  lemma NothingProcessed(db: Db, fqdn: string, sha: Hash)
    ensures ProcessAll(db, fqdn, sha, []) == db
  {
  }

  lemma LastProcessed(db: Db, fqdn: string, sha: Hash, arrivals: seq<Arrival>)
    requires arrivals != []
    ensures var last := arrivals[|arrivals| - 1];
            ProcessAll(db, fqdn, sha, arrivals)
            == Process(ProcessAll(db, fqdn, sha, arrivals[..|arrivals| - 1]), fqdn, sha, last.ndr, last.now).0
  {
    hide Process;
  }

  lemma AddsAtMostOne(s: Db, fqdn: string, sha: Hash, a: Arrival) returns (added: seq<Bounce>)
    ensures Process(s, fqdn, sha, a.ndr, a.now).0.bounces == s.bounces + added && |added| <= 1
  {
    hide Process, Suppresses, IsReported, IsRecorded, Suppress;
    added := [];
    if Process(s, fqdn, sha, a.ndr, a.now).0 == s {
      assert s.bounces + [] == s.bounces;
    } else {
      var b := AddsABounce(s, fqdn, sha, a);
      added := [b];
    }
  }

  lemma FollowsKeepsQueue(before: Db, after: Db)
    requires Follows(before, after)
    ensures after.queue == before.queue && |before.bounces| <= |after.bounces|
  {
  }

  predicate IsNewFor(before: map<string, Suppression>, after: map<string, Suppression>, address: string) {
    address in after && (address in before ==> after[address] != before[address])
  }

  /** Every suppression a run of reports adds or changes traces to a bounce it
      recorded about a mail that was sent, and that to a report of the run: the
      report names the mail, and a block of it says by its own Action, Status
      and recipient fields that the mail's own address failed for good. The
      address suppressed is the mail's, and its codes are the block's; no
      suppression is removed. */
  lemma EverySuppressionTraces(db: Db, fqdn: string, sha: Hash, arrivals: seq<Arrival>, address: string)
    requires RecordedOnce(db.bounces)
    ensures var after := ProcessAll(db, fqdn, sha, arrivals);
            && (address in db.suppressions ==> address in after.suppressions)
            && (IsNewFor(db.suppressions, after.suppressions, address) ==>
                exists i | |db.bounces| <= i < |after.bounces| ::
                  var b := after.bounces[i];
                  && IsReported(after.queue, b) && Suppresses(b)
                  && Lower(Btrim(after.queue[b.queueId].recipientEmail)) == address
                  && after.suppressions[address].reason == ReasonOf(b)
                  && exists k | 0 <= k < |arrivals| :: Tells(arrivals[k], fqdn, db.queue, b))
  {
    hide Tells, ReasonOf, Lower, Btrim, ProcessAll, IsAnswerable;
    var after := ProcessAll(db, fqdn, sha, arrivals);
    EveryRunFollows(db, fqdn, sha, arrivals);
    var added := after.bounces[|db.bounces|..];
    ReplayExactly(db.suppressions, db.queue, added, address);
    if Failures(db.queue, added, address) > 0 {
      var i :| 0 <= i < |added| && FailsAt(db.queue, added[i], address)
          && after.suppressions[address].reason == ReasonOf(added[i]);
      assert after.bounces[|db.bounces| + i] == added[i];
      FailuresAreTold(db, fqdn, sha, arrivals, |db.bounces| + i);
    }
  }

  // ---- A permanent failure -------------------------------------------------

  /** One more count, with this row and these codes. */
  predicate TakesOn(before: map<string, Suppression>, after: map<string, Suppression>, address: string, id: Uuid,
      reason: string) {
    && address in after && after[address].lastQueueId == id && after[address].reason == reason
    && after[address].count == (if address in before then before[address].count else 0) + 1
  }

  /** A permanent failure records one bounce of the block that names the row's
      address. It suppresses that address exactly when it is one mail can be
      sent to and the program and the database trim it alike; the list changes
      exactly when the address as the database trims it can be mailed, and then
      there alone. */
  lemma HardFailureSuppresses(db: Db, id: Uuid, hash: string, received: int, recipients: seq<Recipient>)
    requires Record(db, id, hash, received, recipients).1 == HardFailure
    ensures id in db.queue && IsAnswerable(db.queue[id], received) && !IsRecorded(db, hash)
    ensures var after := Record(db, id, hash, received, recipients).0;
            var row := db.queue[id];
            var email := row.recipientEmail;
            && |after.bounces| == |db.bounces| + 1
            && var b := after.bounces[|db.bounces|];
            && after.bounces == db.bounces + [b] && Suppresses(b) && b.ndr == Some(hash) && b.queueId == id
            && (exists r | r in recipients ::
               Names(r, MatchedAddress(row)) && Classify(r) == Hard && CarriesCodes(b, r))
            && (TakesOn(db.suppressions, after.suppressions, MatchedAddress(row), id, ReasonOf(b))
                <==> IsMailable(Btrim(email)) && TrimSpace(email) == Btrim(email))
            && (after.suppressions != db.suppressions <==> IsMailable(Btrim(email)))
            && after.suppressions - {Lower(Btrim(email))} == db.suppressions - {Lower(Btrim(email))}
  {
    hide Lower, TrimSpace, Btrim, IsMailable, ReasonCode, Suppress, Classify, CarriesCodes;
    var row := db.queue[id];
    var email := row.recipientEmail;
    var after := Record(db, id, hash, received, recipients).0;
    var b := after.bounces[|db.bounces|];
    var r := RecordedBlock(db, id, hash, received, recipients, b);
    assert after.suppressions == Suppress(db.suppressions, row, id, FromReport, ReasonOf(b));
    TrimsAgree(email);
    if IsMailable(Btrim(email)) {
      CountedAgain(db.suppressions, row, id, ReasonOf(b));
    } else {
      NotSuppressed(db.suppressions, row, id, ReasonOf(b));
    }
    if TakesOn(db.suppressions, after.suppressions, MatchedAddress(row), id, ReasonOf(b)) {
      OnlyOneChanges(db.suppressions, after.suppressions, Lower(Btrim(email)), MatchedAddress(row));
      assert |Lower(Btrim(email))| == |Lower(TrimSpace(email))|;
    }
  }

  lemma OthersStay(before: map<string, Suppression>, after: map<string, Suppression>, changed: string, address: string)
    requires after - {changed} == before - {changed} && address != changed
    ensures address in after <==> address in before
    ensures address in after ==> after[address] == before[address]
  {
    assert address in after <==> address in after - {changed};
    assert address in before <==> address in before - {changed};
    assert address in after ==> (after - {changed})[address] == after[address];
    assert address in before ==> (before - {changed})[address] == before[address];
  }

  lemma OnlyOneChanges(before: map<string, Suppression>, after: map<string, Suppression>, changed: string,
      address: string)
    requires after - {changed} == before - {changed}
    requires address in after && after[address].count == (if address in before then before[address].count else 0) + 1
    ensures address == changed
  {
    if address != changed {
      OthersStay(before, after, changed, address);
    }
  }

  // The two kinds of row whose matched address is not suppressed.

  function SentTo(id: Uuid, email: string): (db: Db) {
    Db(map[id := QueueRow("email", Some(Sent), email, None, Some(0))], [], map[])
  }

  /** A block that says its address, a plain one, does not exist. */
  function Unknown(address: string): (r: Recipient) {
    Recipient(address, "", "failed", "5.1.1", 0, "")
  }

  lemma UnknownIsHard(address: string)
    ensures Classify(Unknown(address)) == Hard && Pick([Unknown(address)], address) == Some((Unknown(address), true))
  {
    assert "5.1." <= "5.1.1" && "5.1.1"[4..] == "1";
    assert "1"[..0] == "" && Decimal("1") == 1 && Atoi("1") == Some(1);
    assert Classify(Unknown(address)) == Hard;
  }

  lemma SentToIsRecorded(id: Uuid, email: string, address: string)
    requires MatchedAddress(SentTo(id, email).queue[id]) == address != ""
    ensures var (after, outcome) := Record(SentTo(id, email), id, "h", 0, [Unknown(address)]);
            && outcome == HardFailure && |after.bounces| == 1
            && after.suppressions
               == Suppress(map[], SentTo(id, email).queue[id], id, FromReport, ReasonOf(after.bounces[0]))
  {
    hide Pick, Classify, MatchedAddress, Suppress, ReasonOf;
    UnknownIsHard(address);
  }

  lemma ShortTexts()
    ensures TrimSpace("a@b\n") == "a@b" && Btrim("a@b\n") == "a@b\n" && Lower("a@b") == "a@b"
            && Lower("a@b\n") == "a@b\n"
    ensures TrimSpace("a@") == "a@" && Btrim("a@") == "a@" && Lower("a@") == "a@"
  {
    hide Trim;
    assert "" + "a@b" + "\n" == "a@b\n";
    PadsAreTrimmed("", "a@b", "\n");
    assert "" + "a@" + "" == "a@";
    PadsAreTrimmed("", "a@", "");
  }

  /** White space the database does not trim: the report names a@b, mail to it
      failed for good, and another address is suppressed. */
  lemma PaddedIsSuppressedElsewhere(id: Uuid)
    ensures var (after, outcome) := Record(SentTo(id, "a@b\n"), id, "h", 0, [Unknown("a@b")]);
            && outcome == HardFailure && MatchedAddress(SentTo(id, "a@b\n").queue[id]) == "a@b"
            && IsMailable(Btrim("a@b\n")) && "a@b" !in after.suppressions && "a@b\n" in after.suppressions
  {
    hide TrimSpace, Btrim, Lower, ReasonOf;
    ShortTexts();
    SentToIsRecorded(id, "a@b\n", "a@b");
    assert "a@b\n"[1] == '@';
    assert "a@b\n"[3] == '\n';
  }

  /** Nothing after the '@': the outcome is the same and nothing is suppressed. */
  lemma UnmailableIsNotSuppressed(id: Uuid)
    ensures var (after, outcome) := Record(SentTo(id, "a@"), id, "h", 0, [Unknown("a@")]);
            && outcome == HardFailure && MatchedAddress(SentTo(id, "a@").queue[id]) == "a@"
            && IsPlain("a@") && after.suppressions == map[]
  {
    hide TrimSpace, Btrim, Lower, ReasonOf;
    ShortTexts();
    SentToIsRecorded(id, "a@", "a@");
    assert "a@"[1] == '@';
  }

  lemma NotSuppressed(list: map<string, Suppression>, row: QueueRow, id: Uuid, reason: string)
    requires !IsMailable(Btrim(row.recipientEmail))
    ensures Suppress(list, row, id, FromReport, reason) == list
  {
    hide Lower, Btrim, IsMailable;
  }

  lemma CountedAgain(list: map<string, Suppression>, row: QueueRow, id: Uuid, reason: string)
    requires row.channel == "email" && IsMailable(Btrim(row.recipientEmail))
    ensures var r := Suppress(list, row, id, FromReport, reason);
            var address := Lower(Btrim(row.recipientEmail));
            && r != list
            && address in r && r[address].lastQueueId == id && r[address].reason == reason
            && r[address].count == (if address in list then list[address].count else 0) + 1
            && r - {address} == list - {address}
  {
    hide Lower, Btrim, IsMailable;
    var address := Lower(Btrim(row.recipientEmail));
    var r := Suppress(list, row, id, FromReport, reason);
    assert address in list ==> r[address].count != list[address].count;
  }

  /** The characters the database takes in a suppression's codes. */
  predicate IsReasonChar(c: char) {
    'A' <= c <= 'Z' || '0' <= c <= '9' || c == ' ' || c == '.' || c == '(' || c == ')'
  }

  predicate IsStorableReason(s: string) {
    1 <= |s| <= 40 && forall i | 0 <= i < |s| :: IsReasonChar(s[i])
  }

  lemma StatusCodeIsStorable(s: string)
    requires IsStatusCode(s)
    ensures 5 <= |s| <= 9 && !IsBlank(s[0]) && !IsBlank(s[|s| - 1]) && IsStorableReason(s)
  {
    var dot: nat :| dot < |s| && IsCodeWith(s, dot);
    assert DigitsIn(s, 2, dot) && DigitsIn(s, dot + 1, |s|);
  }

  /** The codes of a permanent failure are always ones the database takes,
      whatever the block's fields say, so a suppression is never refused for
      them. */
  lemma HardReasonIsStorable(id: Uuid, block: Fields, hash: string, received: int)
    requires Classify(RecipientOf(block)) == Hard
    ensures IsStorableReason(ReasonOf(BounceOf(id, RecipientOf(block), true, hash, received)))
  {
    hide IsStatusCode, TrimSpace, RecipientAddressStatus, RecipientOf, Digits, IsStorableReason;
    var r := RecipientOf(block);
    NoAddressStatusIsEmpty(r.status);
    StatusCodeIsStorable(r.status);
    if r.asCode != "" {
      WithAsCode(r.status, r.asCode);
    } else {
      TrimKeeps(r.status);
    }
  }

  /** What the bounces table takes: its action, its status, its reply code and
      its token. */
  predicate IsStorableBounce(b: Bounce) {
    && b.kind != NoFailure && (b.action == "failed" || b.action == "delayed")
    && (b.status.Some? ==> IsStatusCode(b.status.value))
    && (b.smtpCode.Some? ==> 200 <= b.smtpCode.value <= 599)
    && (b.asCode.Some? ==> b.asCode.value != "" && IsAsCode(b.asCode.value))
  }

  /** Whatever the fields of a block that reports a failure or a delay say, its
      bounce is one the database takes. */
  lemma EveryBounceIsStorable(id: Uuid, block: Fields, matched: bool, hash: string, received: int)
    requires Reports(RecipientOf(block))
    ensures IsStorableBounce(BounceOf(id, RecipientOf(block), matched, hash, received))
  {
    hide IsStatusCode, ChosenStatus, DiagnosticOf, AddressField, FirstWord, RecipientAddressStatus, IsAsCode;
    DiagnosticReplyIsAReply(Field(block, "Diagnostic-Code"));
    var r := RecipientOf(block);
    assert (r.status == "" || IsStatusCode(r.status)) && IsAsCode(r.asCode);
  }

  lemma NoAddressStatusIsEmpty(status: string)
    ensures RecipientAddressStatus(status) ==> status != ""
  {
  }

  lemma TrimKeeps(s: string)
    requires s != "" && !IsBlank(s[0]) && !IsBlank(s[|s| - 1])
    ensures TrimSpace(s) == s
  {
  }

  lemma WithAsCode(code: string, asCode: string)
    requires |code| <= 9 && IsStorableReason(code) && !IsBlank(code[0])
    requires IsDigits(asCode) && |asCode| <= 12
    ensures var whole := code + " AS(" + asCode + ")";
            IsStorableReason(whole) && TrimSpace(whole) == whole
  {
    hide TrimSpace;
    var whole := code + " AS(" + asCode + ")";
    forall i | 0 <= i < |whole|
      ensures IsReasonChar(whole[i])
    {
      if |code| + 4 <= i < |whole| - 1 {
        assert whole[i] == asCode[i - |code| - 4];
      }
    }
    TrimKeeps(whole);
  }

  // ---- Recording again -----------------------------------------------------

  /** A report without a date, handled before the clock reached the time the mail
      it is about was sent, less the slack: it is taken for another mail's. */
  predicate IsEarly(queue: map<Uuid, QueueRow>, fqdn: string, ndr: Ndr, now: int) {
    && ndr.receivedAt.None? && Parse(ndr.mime).Reads?
    && var id := ReportQueueId(Parse(ndr.mime).report, fqdn);
      id.Some? && id.value in queue && queue[id.value].sentAt.Some?
          && now < queue[id.value].sentAt.value - SENT_AT_SLACK
  }

  lemma EarlyDoesNothing(db: Db, fqdn: string, sha: Hash, ndr: Ndr, now: int)
    requires IsEarly(db.queue, fqdn, ndr, now)
    ensures Process(db, fqdn, sha, ndr, now).0 == db
  {
    hide ReportQueueId, Parse, Pick, TrimSpace, MatchedAddress, Suppress, ReasonCode, Classify;
  }

  /** Handling a report again would change nothing, whenever it is done but
      early. */
  ghost predicate Settled(db: Db, fqdn: string, sha: Hash, ndr: Ndr) {
    forall now: int :: !IsEarly(db.queue, fqdn, ndr, now) ==> Process(db, fqdn, sha, ndr, now).0 == db
  }

  lemma HandledAgain(db: Db, fqdn: string, sha: Hash, ndr: Ndr, now: int, later: int)
    requires !IsEarly(db.queue, fqdn, ndr, now) && !IsEarly(db.queue, fqdn, ndr, later)
    ensures var after := Process(db, fqdn, sha, ndr, now).0;
            after.queue == db.queue && Process(after, fqdn, sha, ndr, later).0 == after
  {
    hide ReportQueueId, Parse, Pick, TrimSpace, MatchedAddress, Suppress, ReasonCode, Classify;
    var after := Process(db, fqdn, sha, ndr, now).0;
    if after != db {
      assert after.bounces[|db.bounces|].ndr.Some?;
    }
  }

  /** A report is settled once it is handled, dated or not, and stays so whatever
      else is handled after it. */
  lemma HandledIsSettled(db: Db, fqdn: string, sha: Hash, ndr: Ndr, now: int)
    requires !IsEarly(db.queue, fqdn, ndr, now)
    ensures Settled(Process(db, fqdn, sha, ndr, now).0, fqdn, sha, ndr)
  {
    hide Process, IsEarly;
    HandledAgain(db, fqdn, sha, ndr, now, now);
    forall later: int | !IsEarly(db.queue, fqdn, ndr, later)
      ensures Process(Process(db, fqdn, sha, ndr, now).0, fqdn, sha, ndr, later).0 == Process(db, fqdn, sha, ndr, now).0
    {
      HandledAgain(db, fqdn, sha, ndr, now, later);
    }
  }

  lemma NothingToDoStays(db: Db, fqdn: string, sha: Hash, ndr: Ndr, later: int, other: Ndr, now: int)
    requires Process(db, fqdn, sha, ndr, later).0 == db
    ensures var after := Process(db, fqdn, sha, other, now).0;
            after.queue == db.queue && Process(after, fqdn, sha, ndr, later).0 == after
  {
    hide ReportQueueId, Parse, Pick, TrimSpace, MatchedAddress, Suppress, ReasonCode, Classify;
    var after := Process(db, fqdn, sha, other, now).0;
    assert after.queue == db.queue && db.bounces <= after.bounces;
  }

  lemma SettledStays(db: Db, fqdn: string, sha: Hash, ndr: Ndr, other: Ndr, now: int)
    requires Settled(db, fqdn, sha, ndr)
    ensures Settled(Process(db, fqdn, sha, other, now).0, fqdn, sha, ndr)
  {
    hide Process, IsEarly;
    var after := Process(db, fqdn, sha, other, now).0;
    HandlesKeepQueue(db, fqdn, sha, other, now);
    forall later: int | !IsEarly(after.queue, fqdn, ndr, later)
      ensures Process(after, fqdn, sha, ndr, later).0 == after
    {
      NothingToDoStays(db, fqdn, sha, ndr, later, other, now);
    }
  }

  lemma HandlesKeepQueue(db: Db, fqdn: string, sha: Hash, ndr: Ndr, now: int)
    ensures Process(db, fqdn, sha, ndr, now).0.queue == db.queue
  {
    hide ReportQueueId, Parse, Pick, TrimSpace, MatchedAddress, Suppress, ReasonCode, Classify;
  }
}
