// What a report's own fields and the mail's row decide: whose mail it is about,
// what is recorded of it and what is suppressed, told from them alone.
module BounceFields {
  import opened Options
  import opened Text
  import opened Dsn
  import opened Bounces

  // ---- Whose mail it is ----------------------------------------------------

  /** A message id in the form the mailer writes: the row's id, in either case,
      at the sender's own domain. */
  predicate IsIdOf(id: string, fqdn: string, row: Uuid) {
    && fqdn != "" && |id| > 36 && Lower(id[..36]) == UuidText(row) && id[36] == '@'
    && '@' !in id[37..] && Lower(id[37..]) == Lower(fqdn)
  }

  /** Some hexadecimal digits as text. */
  function HexText(digits: seq<nat>): (r: string)
    requires forall i | 0 <= i < |digits| :: digits[i] < 16
    ensures |r| == |digits|
  {
    seq(|digits|, i requires 0 <= i < |digits| => "0123456789abcdef"[digits[i]])
  }

  /** A UUID's canonical form: 8, 4, 4, 4 and 12 digits with dashes between. */
  lemma CanonicalFormExactly(u: Uuid)
    ensures UuidText(u) == HexText(u[..8]) + ("-" + HexText(u[8..12])) + ("-" + HexText(u[12..16]))
                           + ("-" + HexText(u[16..20])) + ("-" + HexText(u[20..]))
  {
    var r := HexText(u[..8]) + ("-" + HexText(u[8..12])) + ("-" + HexText(u[12..16])) + ("-" + HexText(u[16..20]))
             + ("-" + HexText(u[20..]));
    assert |r| == 36;
    forall i | 0 <= i < 36
      ensures UuidText(u)[i] == r[i]
    {
      if !IsDash(i) {
        assert UuidText(u)[i] == HexDigit(u[DigitAt(i)]);
      }
    }
  }

  /** A bracket never closed holds no id. */
  lemma UnclosedIsNoId(before: string, text: string)
    requires '<' !in before && '>' !in text
    ensures MessageIds(before + ("<" + text)) == [] && MessageIds(before) == []
  {
    hide MessageIds;
    var header := before + ("<" + text);
    NothingToRead(before);
    assert header[|before|] == '<';
    forall j | 0 <= j < |before|
      ensures header[j] != '<'
    {
      assert header[j] == before[j] && before[j] in before;
    }
    IndexFromIs(header, '<', 0, |before|);
    forall j | |before| <= j < |header|
      ensures header[j] != '>'
    {
      if j > |before| {
        assert header[j] == text[j - |before| - 1] && text[j - |before| - 1] in text;
      }
    }
    NextId(header);
  }

  lemma NothingToRead(s: string)
    requires '<' !in s
    ensures MessageIds(s) == []
  {
    hide MessageIds;
    NextId(s);
  }

  ghost predicate NamesNoRow(id: string, fqdn: string) {
    forall row: Uuid :: !IsIdOf(id, fqdn, row)
  }

  /** The ids that decide: those of the Message-ID returned and then of the queue
      header returned, when either was; else those of the report's In-Reply-To
      when it has one; else those of its References. */
  function DecidingIds(h: Headers): (ids: seq<string>) {
    if h.originalMessageId != "" || h.originalQueueHeader != "" then
      MessageIds(h.originalMessageId) + MessageIds(h.originalQueueHeader)
    else if h.inReplyTo != "" then MessageIds(h.inReplyTo)
    else MessageIds(h.references)
  }

  /** The first of some ids that names a row names this one. */
  ghost predicate FirstNames(ids: seq<string>, fqdn: string, row: Uuid) {
    exists i | 0 <= i < |ids| :: IsIdOf(ids[i], fqdn, row) && forall j | 0 <= j < i :: NamesNoRow(ids[j], fqdn)
  }

  ghost predicate NoneNames(ids: seq<string>, fqdn: string) {
    forall i | 0 <= i < |ids| :: NamesNoRow(ids[i], fqdn)
  }

  lemma IdNamesItsRow(id: string, fqdn: string)
    ensures forall row :: QueueId(id, fqdn) == Some(row) <==> IsIdOf(id, fqdn, row)
    ensures QueueId(id, fqdn).None? <==> NamesNoRow(id, fqdn)
  {
    hide QueueId, Lower, UuidText;
    forall row
      ensures QueueId(id, fqdn) == Some(row) <==> IsIdOf(id, fqdn, row)
    {
      NamesExactly(id, fqdn, row);
    }
  }

  lemma {:induction false} FirstNamed(ids: seq<string>, fqdn: string, row: Uuid)
    ensures FirstQueueId(ids, fqdn) == Some(row) <==> FirstNames(ids, fqdn, row)
    ensures FirstQueueId(ids, fqdn).None? <==> NoneNames(ids, fqdn)
  {
    hide QueueId, IsIdOf, NamesNoRow;
    if ids != [] {
      var rest := ids[1..];
      IdNamesItsRow(ids[0], fqdn);
      FirstNamed(rest, fqdn, row);
      assert forall i | 0 <= i < |rest| :: rest[i] == ids[i + 1];
      if FirstNames(rest, fqdn, row) && NamesNoRow(ids[0], fqdn) {
        var i :| 0 <= i < |rest| && IsIdOf(rest[i], fqdn, row) && forall j | 0 <= j < i :: NamesNoRow(rest[j], fqdn);
        assert IsIdOf(ids[i + 1], fqdn, row);
      }
      if FirstNames(ids, fqdn, row) {
        var i :| 0 <= i < |ids| && IsIdOf(ids[i], fqdn, row) && forall j | 0 <= j < i :: NamesNoRow(ids[j], fqdn);
        if i > 0 {
          assert IsIdOf(rest[i - 1], fqdn, row);
        } else {
          assert QueueId(ids[0], fqdn) == Some(row);
        }
      }
      if NoneNames(ids, fqdn) {
        assert NamesNoRow(ids[0], fqdn);
        forall i | 0 <= i < |rest|
          ensures NamesNoRow(rest[i], fqdn)
        {
          assert NamesNoRow(ids[i + 1], fqdn);
        }
      }
      if NoneNames(rest, fqdn) && NamesNoRow(ids[0], fqdn) {
        forall i | 0 <= i < |ids|
          ensures NamesNoRow(ids[i], fqdn)
        {
          assert i > 0 ==> NamesNoRow(rest[i - 1], fqdn);
        }
      }
    }
  }

  /** Whose mail a message is about, from the headers read of it alone. */
  lemma RowIsDecided(h: Headers, status: StatusPart, fqdn: string, row: Uuid)
    requires Parse(Delivery(h, status)).Reads?
    ensures var report := Parse(Delivery(h, status)).report;
            && (ReportQueueId(report, fqdn) == Some(row) <==> FirstNames(DecidingIds(h), fqdn, row))
            && (ReportQueueId(report, fqdn).None? <==> NoneNames(DecidingIds(h), fqdn))
            && Ok(report.recipients) == ReadStatus(status) && report.messageId == h.messageId
  {
    hide ReadStatus, MessageIds, IdsOf, FirstQueueId, IsIdOf, NamesNoRow, FirstNames, NoneNames;
    ReturnedIds(Parse(Delivery(h, status)).report);
    FirstNamed(DecidingIds(h), fqdn, row);
  }

  // ---- What is done with a message -----------------------------------------

  /** What names a report once: the mailbox's id of it, else its own. */
  function NameOf(id: string, h: Headers): (name: string) {
    if TrimSpace(id) != "" then TrimSpace(id) else h.messageId
  }

  function When(receivedAt: Option<int>, now: int): (t: int) {
    if receivedAt.Some? then receivedAt.value else now
  }

  /** A message that is no report, cannot be read, is about no mail of the
      sender's or has no name changes nothing, and its outcome says which; any
      other is recorded of the row its deciding headers name. */
  lemma MessageIsHandledExactly(db: Db, fqdn: string, sha: Hash, ndr: Ndr, now: int, row: Uuid)
    ensures var (after, outcome) := Process(db, fqdn, sha, ndr, now);
            match ndr.mime
            case NotDsn => after == db && outcome == Ok(NotADsn)
            case Garbled => after == db && outcome == Err(Unreadable)
            case Delivery(h, status) =>
              match ReadStatus(status)
              case Err(_) => after == db && outcome == Err(Unreadable)
              case Ok(recipients) =>
                && (NoneNames(DecidingIds(h), fqdn) ==> after == db && outcome == Ok(Unmatched))
                && (FirstNames(DecidingIds(h), fqdn, row) ==>
                      if NameOf(ndr.id, h) == "" then after == db && outcome == Err(NoId)
                      else
                        var done := Record(db, row, sha(NameOf(ndr.id, h)), When(ndr.receivedAt, now), recipients);
                        after == done.0 && outcome == Ok(done.1))
  {
    hide ReadStatus, ReportQueueId, DecidingIds, FirstNames, NoneNames, Record, TrimSpace;
    if ndr.mime.Delivery? && ReadStatus(ndr.mime.status).Ok? {
      RowIsDecided(ndr.mime.headers, ndr.mime.status, fqdn, row);
    }
  }

  /** Deciding headers name one row or none. */
  lemma SomeOrNoneIsNamed(ids: seq<string>, fqdn: string) returns (row: Option<Uuid>)
    ensures row.None? ==> NoneNames(ids, fqdn)
    ensures row.Some? ==> FirstNames(ids, fqdn, row.value) && !NoneNames(ids, fqdn)
  {
    hide FirstNames, NoneNames, FirstQueueId;
    row := FirstQueueId(ids, fqdn);
    var zero: Uuid := seq(32, i => 0);
    FirstNamed(ids, fqdn, if row.Some? then row.value else zero);
  }

  /** A returned Message-ID the mailer wrote decides, whatever any other header
      says; a queue header it wrote does beside a Message-ID that is no row's. */
  lemma ReturnedIdDecides(h: Headers, status: StatusPart, fqdn: string, row: Uuid)
    requires Parse(Delivery(h, status)).Reads? && fqdn != "" && '@' !in fqdn && '>' !in fqdn
    ensures h.originalMessageId == Bracketed(row, fqdn) ==>
              ReportQueueId(Parse(Delivery(h, status)).report, fqdn) == Some(row)
    ensures h.originalQueueHeader == Bracketed(row, fqdn) && NoneNames(MessageIds(h.originalMessageId), fqdn) ==>
              ReportQueueId(Parse(Delivery(h, status)).report, fqdn) == Some(row)
  {
    hide ReadStatus, MessageIds, ReportQueueId, FirstQueueId, NoneNames, Bracketed;
    FirstNamed(MessageIds(h.originalMessageId), fqdn, row);
    WrittenQueueIdIsRead(Parse(Delivery(h, status)).report, fqdn, row);
  }

  /** Without a returned header In-Reply-To decides before References. */
  lemma InReplyToComesFirst(h: Headers, status: StatusPart, fqdn: string, row: Uuid)
    requires Parse(Delivery(h, status)).Reads? && fqdn != "" && '@' !in fqdn && '>' !in fqdn
    requires h.originalMessageId == "" && h.originalQueueHeader == ""
    ensures h.inReplyTo == Bracketed(row, fqdn) || (h.inReplyTo == "" && h.references == Bracketed(row, fqdn)) ==>
              ReportQueueId(Parse(Delivery(h, status)).report, fqdn) == Some(row)
  {
    hide ReadStatus, MessageIds, ReportQueueId, Bracketed;
    WrittenQueueIdIsRead(Parse(Delivery(h, status)).report, fqdn, row);
  }

  /** Once a header was returned, what the report says of itself in In-Reply-To
      and References changes nothing at all; without one References changes
      nothing beside an In-Reply-To; and the report's own Message-ID changes
      nothing when the mailbox gave it an id. */
  lemma ForgedHeadersChangeNothing(db: Db, fqdn: string, sha: Hash, ndr: Ndr, forged: Headers, now: int)
    requires ndr.mime.Delivery?
    requires var h := ndr.mime.headers;
             && forged.originalMessageId == h.originalMessageId && forged.originalQueueHeader == h.originalQueueHeader
             && (h.originalMessageId == "" && h.originalQueueHeader == "" ==> forged.inReplyTo == h.inReplyTo)
             && (h.originalMessageId == "" && h.originalQueueHeader == "" && h.inReplyTo == "" ==>
                   forged.references == h.references)
             && (TrimSpace(ndr.id) == "" ==> forged.messageId == h.messageId)
    ensures Process(db, fqdn, sha, ndr.(mime := Delivery(forged, ndr.mime.status)), now)
            == Process(db, fqdn, sha, ndr, now)
  {
    hide ReadStatus, ReportQueueId, FirstNames, NoneNames, MessageIds, Record, TrimSpace, Process;
    var h := ndr.mime.headers;
    assert DecidingIds(forged) == DecidingIds(h);
    assert NameOf(ndr.id, forged) == NameOf(ndr.id, h);
    var row := SomeOrNoneIsNamed(DecidingIds(h), fqdn);
    var zero: Uuid := seq(32, i => 0);
    var named := if row.Some? then row.value else zero;
    MessageIsHandledExactly(db, fqdn, sha, ndr, now, named);
    MessageIsHandledExactly(db, fqdn, sha, ndr.(mime := Delivery(forged, ndr.mime.status)), now, named);
  }

  // ---- What is recorded ----------------------------------------------------

  /** A mail a report that came then can be about: e-mail, sent, to someone, and
      not more than two minutes after the report. */
  predicate WasSentBefore(row: QueueRow, received: int) {
    && row.channel == "email" && row.status == Some(Sent) && row.sentAt.Some?
    && row.sentAt.value - received <= 120
    && exists i | 0 <= i < |row.recipientEmail| :: !IsBlank(row.recipientEmail[i])
  }

  predicate SaysSomething(r: Recipient) {
    r.action == "failed" || r.action == "delayed"
  }

  predicate IsAbout(r: Recipient, row: QueueRow) {
    var address := Lower(TrimSpace(row.recipientEmail));
    r.finalRecipient == address || r.originalRecipient == address
  }

  /** The block that is recorded: the first failure or delay of the mail's own
      address, or, where there is none, the first of any. */
  predicate IsTheBlock(rs: seq<Recipient>, row: QueueRow, k: nat, own: bool) {
    && k < |rs| && SaysSomething(rs[k])
    && (own ==> IsAbout(rs[k], row) && forall j | 0 <= j < k && SaysSomething(rs[j]) :: !IsAbout(rs[j], row))
    && (!own ==> (forall j | 0 <= j < k :: !SaysSomething(rs[j]))
                 && forall j | 0 <= j < |rs| && SaysSomething(rs[j]) :: !IsAbout(rs[j], row))
  }

  predicate IsPermanent(r: Recipient) {
    r.action == "failed" && (RecipientAddressStatus(r.status) || (r.status == "5.4.1" && r.asCode == "201806281"))
  }

  function KindOf(r: Recipient): (k: Kind)
    requires SaysSomething(r)
  {
    if r.action == "delayed" then Delay else if IsPermanent(r) then Hard else Soft
  }

  lemma ClassifiedByAction(r: Recipient)
    ensures Bounces.Reports(r) <==> SaysSomething(r)
    ensures SaysSomething(r) ==> Classify(r) == KindOf(r)
  {
    hide RecipientAddressStatus;
  }

  lemma SomethingIsLeft(s: string)
    ensures TrimSpace(s) != "" <==> exists i | 0 <= i < |s| :: !IsBlank(s[i])
  {
    hide Trim;
    var left, right := TrimSplits(s, IsBlank);
    if TrimSpace(s) == "" {
      assert s == left + right;
    } else {
      assert s[|left|] == TrimSpace(s)[0];
    }
  }

  lemma AnswerableExactly(row: QueueRow, received: int)
    ensures IsAnswerable(row, received) <==> WasSentBefore(row, received)
  {
    hide TrimSpace, Lower;
    SomethingIsLeft(row.recipientEmail);
    assert |Lower(TrimSpace(row.recipientEmail))| == |TrimSpace(row.recipientEmail)|;
  }

  lemma PicksTheBlock(rs: seq<Recipient>, row: QueueRow, k: nat, own: bool)
    requires IsTheBlock(rs, row, k, own)
    ensures Pick(rs, MatchedAddress(row)) == Some((rs[k], own))
  {
    hide Lower, TrimSpace, Classify, RecipientAddressStatus;
    forall i | 0 <= i < |rs|
      ensures Bounces.Reports(rs[i]) <==> SaysSomething(rs[i])
    {
      ClassifiedByAction(rs[i]);
    }
    var address := MatchedAddress(row);
    if own {
      assert Bounces.Reports(rs[k]) && Names(rs[k], address);
    }
    var picked := Pick(rs, address);
    if picked.Some? && picked.value.1 {
      var i :| 0 <= i < |rs| && rs[i] == picked.value.0
               && forall j | 0 <= j < i :: !(Bounces.Reports(rs[j]) && Names(rs[j], address));
      assert Bounces.Reports(rs[i]) && Names(rs[i], address);
    } else if picked.Some? {
      var i :| 0 <= i < |rs| && rs[i] == picked.value.0 && forall j | 0 <= j < i :: !Bounces.Reports(rs[j]);
      assert Bounces.Reports(rs[i]);
    }
  }

  lemma PicksNothingExactly(rs: seq<Recipient>, row: QueueRow)
    ensures Pick(rs, MatchedAddress(row)).None? <==> forall j | 0 <= j < |rs| :: !SaysSomething(rs[j])
  {
    hide Lower, TrimSpace, Classify, RecipientAddressStatus;
    forall i | 0 <= i < |rs|
      ensures Bounces.Reports(rs[i]) <==> SaysSomething(rs[i])
    {
      ClassifiedByAction(rs[i]);
    }
    var picked := Pick(rs, MatchedAddress(row));
    if picked.Some? {
      var i :| 0 <= i < |rs| && rs[i] == picked.value.0;
      assert Bounces.Reports(rs[i]);
    }
  }

  /** A report about no mail that was sent before it is unmatched; one that says
      nothing of anyone reports no failure; neither changes anything. */
  lemma NothingRecordedExactly(db: Db, id: Uuid, hash: string, received: int, rs: seq<Recipient>)
    ensures var (after, outcome) := Record(db, id, hash, received, rs);
            && (outcome.Unmatched? <==> id !in db.queue || !WasSentBefore(db.queue[id], received))
            && (outcome.ReportsNoFailure? <==>
                  id in db.queue && WasSentBefore(db.queue[id], received)
                  && forall j | 0 <= j < |rs| :: !SaysSomething(rs[j]))
            && (outcome.Unmatched? || outcome.ReportsNoFailure? ==> after == db)
  {
    hide IsAnswerable, WasSentBefore, Classify, Suppress, ReasonOf, IsRecorded, MatchedAddress, Pick, SaysSomething;
    if id in db.queue {
      AnswerableExactly(db.queue[id], received);
      PicksNothingExactly(rs, db.queue[id]);
    }
  }

  /** Where anything is said there is a block that is recorded. */
  lemma FindTheBlock(rs: seq<Recipient>, row: QueueRow) returns (k: nat, own: bool)
    requires exists j | 0 <= j < |rs| :: SaysSomething(rs[j])
    ensures IsTheBlock(rs, row, k, own)
  {
    hide IsAbout;
    own := exists j | 0 <= j < |rs| :: SaysSomething(rs[j]) && IsAbout(rs[j], row);
    k := 0;
    while k < |rs| && !(SaysSomething(rs[k]) && (own ==> IsAbout(rs[k], row)))
      invariant k <= |rs|
      invariant forall j | 0 <= j < k :: !(SaysSomething(rs[j]) && (own ==> IsAbout(rs[j], row)))
    {
      k := k + 1;
    }
  }

  function OrNone(s: string): (r: Option<string>) {
    if s == "" then None else Some(s)
  }

  /** A report is recorded once, as one bounce with the fields of its block; its
      outcome says whether the block is about another address, a delay, a
      permanent failure or any other, and only a permanent failure of the
      mail's own address touches the suppressions. */
  lemma RecordedExactly(db: Db, id: Uuid, hash: string, received: int, rs: seq<Recipient>, k: nat, own: bool)
    requires id in db.queue && WasSentBefore(db.queue[id], received) && IsTheBlock(rs, db.queue[id], k, own)
    ensures var (after, outcome) := Record(db, id, hash, received, rs);
            var r := rs[k];
            if exists i | 0 <= i < |db.bounces| :: db.bounces[i].ndr == Some(hash) then
              after == db && outcome == Duplicate
            else
              && after.queue == db.queue
              && after.bounces == db.bounces + [Bounce(
                   id, FromReport, KindOf(r), r.action, OrNone(r.status),
                   if r.smtpCode == 0 then None else Some(r.smtpCode), OrNone(r.asCode), own, Some(hash), received)]
              && outcome == (if !own then OtherRecipient
                             else if r.action == "delayed" then Delayed
                             else if IsPermanent(r) then HardFailure else SoftFailure)
              && after.suppressions == if outcome == HardFailure
                                       then Suppress(db.suppressions, db.queue[id], id, FromReport, CodesOf(r))
                                       else db.suppressions
  {
    hide IsAnswerable, WasSentBefore, Suppress, ReasonCode, MatchedAddress, Pick, RecipientAddressStatus, IsTheBlock,
      Classify;
    BlockSaysSomething(rs, db.queue[id], k, own);
    AnswerableExactly(db.queue[id], received);
    PicksTheBlock(rs, db.queue[id], k, own);
    var r := rs[k];
    ClassifiedByAction(r);
    CodesAreReason(r, BounceOf(id, r, own, hash, received));
  }

  lemma BlockSaysSomething(rs: seq<Recipient>, row: QueueRow, k: nat, own: bool)
    requires IsTheBlock(rs, row, k, own)
    ensures k < |rs| && SaysSomething(rs[k])
  {
  }

  /** What a suppression keeps: the code, or else the reply code, and the token
      after it. */
  function CodesOf(r: Recipient): (s: string) {
    var code := if r.status != "" then r.status else if r.smtpCode != 0 then Digits(r.smtpCode) else "";
    TrimSpace(if r.asCode == "" then code else code + (" AS(" + (r.asCode + ")")))
  }

  lemma CodesAreReason(r: Recipient, b: Bounce)
    requires CarriesCodes(b, r)
    ensures ReasonOf(b) == CodesOf(r)
  {
    hide TrimSpace, Digits;
    var code := if r.status != "" then r.status else if r.smtpCode != 0 then Digits(r.smtpCode) else "";
    assert code + " AS(" + r.asCode + ")" == code + (" AS(" + (r.asCode + ")"));
  }

  // ---- What is suppressed --------------------------------------------------

  /** What the suppressions table takes as an address: in lower case, no space at
      either end, and an '@' with something on both sides. */
  predicate IsListable(address: string) {
    && Lower(address) == address
    && (exists i | 1 <= i < |address| - 1 :: address[i] == '@')
    && address[0] != ' ' && address[|address| - 1] != ' '
  }

  predicate IsPadded(email: string, left: string, middle: string, right: string) {
    && AllOf(left, IsSpace) && AllOf(right, IsSpace) && email == left + middle + right
    && (middle == "" || (middle[0] != ' ' && middle[|middle| - 1] != ' '))
  }

  /** A row's address as the database reads it: no spaces around it, in lower
      case. */
  ghost predicate IsAddressOf(address: string, email: string) {
    exists left, middle, right :: IsPadded(email, left, middle, right) && address == Lower(middle)
  }

  lemma AddressIsDatabases(address: string, email: string)
    ensures IsAddressOf(address, email) <==> address == Lower(Btrim(email))
  {
    hide Lower, Btrim, IsPadded;
    if left, middle, right :| IsPadded(email, left, middle, right) && address == Lower(middle) {
      BtrimDrops(email, left, middle, right);
    }
    if address == Lower(Btrim(email)) {
      var left, right := BtrimParts(email);
    }
  }

  lemma BtrimDrops(email: string, left: string, middle: string, right: string)
    requires IsPadded(email, left, middle, right)
    ensures Btrim(email) == middle
  {
    hide TrimLeft, TrimRight, Trim;
    TrimPads(left, middle, right, IsSpace);
    assert Btrim(email) == Btrim(middle);
  }

  lemma BtrimParts(s: string) returns (left: string, right: string)
    ensures IsPadded(s, left, Btrim(s), right)
  {
    hide Trim, AllOf;
    left, right := TrimSplits(s, IsSpace);
    assert s == left + (Btrim(s) + right);
  }

  /** A suppression is counted, with the new codes and row and the subject of
      the row, or the one it had where the row has none; its address is one the
      table takes; and the rest of the list stays. Mail of another kind, or to
      no address that can be mailed, suppresses nothing. */
  lemma SuppressedExactly(list: map<string, Suppression>, row: QueueRow, id: Uuid, source: Source, reason: string,
                          address: string)
    requires IsAddressOf(address, row.recipientEmail)
    ensures var r := Suppress(list, row, id, source, reason);
            if row.channel == "email" && IsListable(address) then
              var subject := if row.recipientSub.Some? then row.recipientSub
                             else if address in list then list[address].recipientSub else None;
              r == list[address := Suppression(subject, source, reason,
                                               (if address in list then list[address].count else 0) + 1, id)]
            else r == list
  {
    hide Lower, Btrim, IsAddressOf;
    AddressIsDatabases(address, row.recipientEmail);
    ListableIsMailable(Btrim(row.recipientEmail));
  }

  lemma ListableIsMailable(middle: string)
    requires middle == "" || (middle[0] != ' ' && middle[|middle| - 1] != ' ')
    ensures IsListable(Lower(middle)) <==> IsMailable(middle)
  {
    LowerTwice(middle);
    if IsMailable(middle) {
      var i :| 1 <= i < |middle| - 1 && middle[i] == '@';
      assert Lower(middle)[i] == '@';
    }
    if IsListable(Lower(middle)) {
      var i :| 1 <= i < |middle| - 1 && Lower(middle)[i] == '@';
      assert middle[i] == '@';
    }
  }

  // ---- What a block's fields say -------------------------------------------

  /** A first block with neither a Final-Recipient nor an Action is the message's. */
  function OfTheMessage(blocks: seq<Fields>): (n: nat) {
    if blocks != [] && Field(blocks[0], "Final-Recipient") == "" && Field(blocks[0], "Action") == "" then 1 else 0
  }

  /** Every other block of a part is a recipient's, in their order. */
  lemma {:induction false} RecipientsExactly(blocks: seq<Fields>, i: nat)
    ensures |RecipientsOf(blocks)| == |blocks| - OfTheMessage(blocks)
    ensures i < |RecipientsOf(blocks)| ==> RecipientsOf(blocks)[i] == RecipientOf(blocks[i + OfTheMessage(blocks)])
    decreases |blocks|
  {
    hide RecipientOf, Field;
    if blocks != [] {
      var last := |blocks| - 1;
      var before := blocks[..last];
      RecipientsExactly(before, i);
      assert before != [] ==> before[0] == blocks[0];
      assert IsRecipients(blocks, last) <==> !(last == 0 && OfTheMessage(blocks) == 1);
      if i < |RecipientsOf(before)| {
        assert RecipientsOf(blocks)[i] == RecipientsOf(before)[i];
      }
    }
  }

  /** Each field of a recipient is read of its own field of the block. */
  lemma RecipientFieldsExactly(block: Fields)
    ensures var r, d := RecipientOf(block), DiagnosticOf(Field(block, "Diagnostic-Code"));
            && r.finalRecipient == AddressField(Field(block, "Final-Recipient"))
            && r.originalRecipient == AddressField(Field(block, "Original-Recipient"))
            && r.action == Lower(FirstWord(Field(block, "Action")))
            && r.status == ChosenStatus(FirstWord(Field(block, "Status")), d.code)
            && r.smtpCode == d.reply && r.asCode == d.asCode
  {
    hide AddressField, DiagnosticOf, FirstWord, ChosenStatus;
  }

  /** A Status says only its class exactly when both its numbers are a single 0. */
  lemma ClassOnlyExactly(status: string)
    requires IsStatusCode(status)
    ensures IsClassOnly(status) <==> status == [status[0]] + ".0.0"
  {
    var dot: nat :| dot < |status| && IsCodeWith(status, dot);
    if IsClassOnly(status) {
      var tail := status[|status| - 4..];
      assert tail[0] == '.' && tail[1] == '0' && tail[2] == '.' && tail[3] == '0';
      assert status[|status| - 4] == '.' && status[|status| - 2] == '.';
      assert |status| - 2 == dot;
      assert DigitsIn(status, 2, dot) && |status| - 4 == 1;
    }
  }

  /** At most one bracket is taken off each end. */
  lemma UnbracketedExactly(opening: string, address: string, closing: string)
    requires opening == "<" || (opening == "" && (address + closing == "" || (address + closing)[0] != '<'))
    requires closing == ">" || (closing == "" && (address == "" || address[|address| - 1] != '>'))
    ensures Unbracketed(opening + (address + closing)) == address
  {
    var s, t := opening + (address + closing), address + closing;
    if opening == "<" {
      assert "<" <= s && s[1..] == t;
    } else {
      assert s == t;
    }
    if closing == ">" {
      assert t[|t| - 1] == '>' && t[..|t| - 1] == address;
    } else {
      assert t == address;
    }
  }

  /** A field's address, after its first semicolon, is read exactly when its kind
      is rfc822 or utf-8 in any case and it has an '@' and no blank, tab or
      bracket; and then in lower case. */
  lemma AddressIsReadExactly(kind: string, rest: string)
    requires ';' !in kind
    ensures var address := Unbracketed(TrimSpace(rest));
            AddressField(kind + ";" + rest) ==
              if (Lower(TrimSpace(kind)) == "rfc822" || Lower(TrimSpace(kind)) == "utf-8") && '@' in address
                 && ' ' !in address && '\t' !in address && '<' !in address && '>' !in address
              then Lower(address) else ""
    ensures AddressField(kind) == ""
  {
    hide TrimSpace, Lower, Unbracketed, IndexFrom;
    var address := Unbracketed(TrimSpace(rest));
    FieldIsCut(kind, rest);
    UncutIsNoAddress(kind);
    assert IsPlain(address) <==> '@' in address && ' ' !in address && '\t' !in address && '<' !in address
                                 && '>' !in address;
  }

  lemma UncutIsNoAddress(kind: string)
    requires ';' !in kind
    ensures AddressField(kind) == ""
  {
    hide TrimSpace, Lower, Unbracketed;
  }

  /** A part is read up to the first read with an end: refused where more blocks
      than the bound came before it, or it is broken there, or it used up the
      bound on its size, in this order; and else its blocks are all those with
      fields, with that read's own. */
  lemma PartIsReadExactly(part: StatusPart, i: nat)
    requires i < |part.input| && !part.input[i].end.More? && forall j | 0 <= j < i :: part.input[j].end.More?
    ensures ReadStatus(part) ==
              if |Filled(part.input[..i])| > MAX_RECIPIENTS + 1 then Err(TooMany)
              else if part.input[i].end.Broken? then Err(BrokenPart)
              else if part.overlong then Err(TooLong)
              else Ok(RecipientsOf(Filled(part.input[..i + 1])))
  {
    hide RecipientsOf, ReadBlocks, Filled;
    ReadsUpTo(part.input, [], i);
    assert [] + Filled(part.input[..i]) == Filled(part.input[..i]);
    assert [] + Filled(part.input[..i + 1]) == Filled(part.input[..i + 1]);
  }

  lemma {:induction false} ReadsUpTo(input: seq<BlockRead>, blocks: seq<Fields>, i: nat)
    requires i < |input| && !input[i].end.More? && forall j | 0 <= j < i :: input[j].end.More?
    requires |blocks| <= MAX_RECIPIENTS + 1
    ensures ReadBlocks(input, blocks) ==
              if |blocks + Filled(input[..i])| > MAX_RECIPIENTS + 1 then Err(TooMany)
              else if input[i].end.Broken? then Err(BrokenPart)
              else Ok(blocks + Filled(input[..i + 1]))
    decreases i
  {
    var read := input[0];
    var now := if read.fields == map[] then blocks else blocks + [read.fields];
    FilledFirst(input[..i + 1], blocks);
    assert input[..i + 1][1..] == input[1..][..i];
    if i == 0 {
      assert Filled([]) == [];
      assert input[..0] == [] && input[..1][1..] == [];
      assert now == blocks + Filled(input[..1]) && blocks + Filled(input[..0]) == blocks;
    } else {
      FilledFirst(input[..i], blocks);
      assert input[..i][1..] == input[1..][..i - 1];
      if |now| <= MAX_RECIPIENTS + 1 {
        ReadsUpTo(input[1..], now, i - 1);
      } else {
        assert |now + Filled(input[1..][..i - 1])| >= |now|;
      }
    }
  }

  /** The first word of a field is what stands between white space at its start
      and the next white space or the end. */
  lemma FirstWordIsRead(pad: string, word: string, rest: string)
    requires AllOf(pad, IsBlank) && (forall i | 0 <= i < |word| :: !IsBlank(word[i]))
    requires if word == "" then rest == "" else rest == "" || IsBlank(rest[0])
    ensures FirstWord(pad + (word + rest)) == word
  {
    hide TrimLeft, UntilBlank, AllOf, FirstWord;
    StartsAtItsWord(word, rest);
    WordStops(word, rest);
    FirstWordOf(pad, word + rest);
  }

  lemma StartsAtItsWord(word: string, rest: string)
    requires forall i | 0 <= i < |word| :: !IsBlank(word[i])
    requires word == "" ==> rest == ""
    ensures TrimLeft(word + rest, IsBlank) == word + rest
  {
    hide TrimLeft, IsBlank;
    if word == "" {
      assert word + rest == "";
    } else {
      assert (word + rest)[0] == word[0];
    }
  }

  lemma FirstWordOf(pad: string, text: string)
    requires AllOf(pad, IsBlank) && TrimLeft(text, IsBlank) == text
    ensures FirstWord(pad + text) == UntilBlank(text)
  {
    hide TrimLeft, UntilBlank, AllOf;
    TrimLeftPad(pad, text, IsBlank);
  }

  lemma {:induction false} WordStops(word: string, rest: string)
    requires (forall i | 0 <= i < |word| :: !IsBlank(word[i])) && (rest == "" || IsBlank(rest[0]))
    ensures UntilBlank(word + rest) == word
  {
    if word == "" {
      assert word + rest == rest;
    } else {
      assert (word + rest)[1..] == word[1..] + rest;
      WordStops(word[1..], rest);
    }
  }

  /** A Diagnostic-Code is read after its first semicolon, and only when what is
      before is smtp, in any case; else it says nothing. */
  lemma DiagnosticIsCut(kind: string, rest: string)
    requires ';' !in kind
    ensures DiagnosticOf(kind + ";" + rest) ==
              if Lower(TrimSpace(kind)) == "smtp"
              then Diagnostic(ReplyCode(rest), FirstCode(rest, 0), FirstToken(rest, 0)) else Diagnostic(0, "", "")
    ensures DiagnosticOf(kind) == Diagnostic(0, "", "")
  {
    hide IndexFrom, TrimSpace, Lower, ReplyCode, FirstCode, FirstToken;
    var field := kind + ";" + rest;
    assert forall j | 0 <= j < |kind| :: field[j] == kind[j] && kind[j] in kind;
    IndexFromIs(field, ';', 0, |kind|);
    assert field[..|kind|] == kind;
    assert field[|kind| + 1..] == rest;
  }

  /** A reply code is three digits at the start, of class 2, 4 or 5, after white
      space, before a blank, a dash or the end. */
  predicate IsReply(s: string) {
    && |s| == 3 && (s[0] == '2' || s[0] == '4' || s[0] == '5')
    && '0' <= s[1] <= '9' && '0' <= s[2] <= '9'
  }

  lemma ReplyIsRead(pad: string, s: string, rest: string)
    requires (forall i | 0 <= i < |pad| :: IsSmtpBlank(pad[i])) && |s| == 3 && !IsSmtpBlank(s[0])
    ensures ReplyCode(pad + (s + rest)) ==
              if IsReply(s) && (rest == "" || rest[0] == ' ' || rest[0] == '-')
              then (s[0] as int - '0' as int) * 100 + (s[1] as int - '0' as int) * 10 + (s[2] as int - '0' as int)
              else 0
  {
    hide TrimLeft;
    TrimLeftPad(pad, s + rest, IsSmtpBlank);
    var t := s + rest;
    assert t[0] == s[0] && t[1] == s[1] && t[2] == s[2] && (rest != "" ==> t[3] == rest[0]);
    assert TrimLeft(t, IsSmtpBlank) == t;
  }

  lemma ShortIsNoReply(pad: string, s: string)
    requires (forall i | 0 <= i < |pad| :: IsSmtpBlank(pad[i])) && |s| < 3 && (s != "" ==> !IsSmtpBlank(s[0]))
    ensures ReplyCode(pad + s) == 0
  {
    hide TrimLeft;
    TrimLeftPad(pad, s, IsSmtpBlank);
  }

  /** A token AS(…) of one to twelve digits standing at an index. */
  predicate TokenStandsAt(s: string, i: nat, digits: string) {
    && 1 <= |digits| <= 12 && IsDigits(digits)
    && i + |digits| + 4 <= |s| && s[i..i + 3] == "AS(" && s[i + 3..i + 3 + |digits|] == digits
    && s[i + 3 + |digits|] == ')' && (i > 0 ==> !IsWordChar(s[i - 1]))
  }

  lemma TokenAtExactly(s: string, i: nat, digits: string)
    requires i <= |s|
    ensures TokenAt(s, i) == Some(digits) <==> TokenStandsAt(s, i, digits)
  {
    hide DigitsEnd, IsWordChar;
    if TokenStandsAt(s, i, digits) {
      var end := i + 3 + |digits|;
      assert forall j | i + 3 <= j < end :: s[j] == digits[j - (i + 3)];
      DigitsEndIs(s, i + 3, end);
    }
    if TokenAt(s, i) == Some(digits) {
      var end := DigitsEnd(s, i + 3);
      assert digits == s[i + 3..end];
    }
  }

  /** The token found is the one that stands first. */
  lemma {:induction false} FirstTokenExactly(s: string, from: nat, digits: string)
    requires from <= |s| && digits != ""
    ensures FirstToken(s, from) == digits <==>
              exists i | from <= i <= |s| ::
                TokenAt(s, i) == Some(digits) && forall j | from <= j < i :: TokenAt(s, j).None?
    decreases |s| - from
  {
    hide TokenAt;
    if TokenAt(s, from).None? && from < |s| {
      FirstTokenExactly(s, from + 1, digits);
    }
  }

  // ---- What reaches the database -------------------------------------------

  /** A message reaches the database exactly when it is about a mail of the
      sender's and has a name: any other changes nothing there. */
  lemma OthersChangeNothing(db: Db, fqdn: string, sha: Hash, h: Headers, status: StatusPart, id: string,
                            receivedAt: Option<int>, now: int)
    requires ReadStatus(status).Err? || NoneNames(DecidingIds(h), fqdn) || NameOf(id, h) == ""
    ensures var (after, outcome) := Process(db, fqdn, sha, Ndr(id, receivedAt, Delivery(h, status)), now);
            after == db && (outcome == Ok(Unmatched) || outcome.Err?)
  {
    hide ReadStatus, FirstNames, NoneNames, DecidingIds, Record, TrimSpace, Process;
    var row := SomeOrNoneIsNamed(DecidingIds(h), fqdn);
    var zero: Uuid := seq(32, i => 0);
    var ndr := Ndr(id, receivedAt, Delivery(h, status));
    MessageIsHandledExactly(db, fqdn, sha, ndr, now, if row.Some? then row.value else zero);
  }
}
