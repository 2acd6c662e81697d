// Reading a delivery status notification (RFC 3464): which queue row it is
// about, and what each recipient's block says of the address.
module Dsn {
  import opened Options
  import opened Text

  // ---- Message ids ---------------------------------------------------------

  /** Where a header's first <…> opens and closes. */
  function FirstBrackets(header: string): (r: Option<(nat, nat)>)
    ensures r.Some? ==> r.value.0 < r.value.1 < |header|
  {
    var start := IndexFrom(header, '<', 0);
    if start.None? then None
    else
      var end := IndexFrom(header, '>', start.value);
      if end.None? then None else Some((start.value, end.value))
  }

  /** The <…> message ids of a header. */
  function MessageIds(header: string): (r: seq<string>)
    decreases |header|
  {
    var at := FirstBrackets(header);
    if at.None? then []
    else [header[at.value.0 + 1..at.value.1]] + MessageIds(header[at.value.1 + 1..])
  }

  lemma NextId(header: string)
    ensures FirstBrackets(header).None? ==> MessageIds(header) == []
    ensures FirstBrackets(header).Some? ==>
              var (start, end) := FirstBrackets(header).value;
              MessageIds(header) == [header[start + 1..end]] + MessageIds(header[end + 1..])
  {
  }

  method SplitMessageIds(text: string) returns (ids: seq<string>)
    ensures ids == MessageIds(text)
  {
    hide IndexFrom, MessageIds;
    ids := [];
    var header := text;
    while true
      invariant ids + MessageIds(header) == MessageIds(text)
      decreases |header|
    {
      NextId(header);
      var start := IndexFrom(header, '<', 0);
      if start.None? {
        return;
      }
      var end := IndexFrom(header, '>', start.value);
      if end.None? {
        return;
      }
      var id, rest := header[start.value + 1..end.value], header[end.value + 1..];
      assert ids + ([id] + MessageIds(rest)) == (ids + [id]) + MessageIds(rest);
      ids, header := ids + [id], rest;
    }
  }

  /** Ids as a header writes them, each after a separator of its own. */
  function WrittenIds(ids: seq<string>, separators: seq<string>, last: string): (r: string)
    requires |ids| == |separators|
  {
    if ids == [] then last
    else separators[0] + "<" + ids[0] + ">" + WrittenIds(ids[1..], separators[1..], last)
  }

  /** Splitting gives back the ids written: any ids without '>', and any
      separators without '<'. */
  lemma {:induction false} WrittenIdsAreRead(ids: seq<string>, separators: seq<string>, last: string)
    requires |ids| == |separators|
    requires forall i | 0 <= i < |ids| :: '>' !in ids[i] && '<' !in separators[i]
    requires '<' !in last
    ensures MessageIds(WrittenIds(ids, separators, last)) == ids
  {
    if ids != [] {
      var sep, id, rest := separators[0], ids[0], WrittenIds(ids[1..], separators[1..], last);
      OneIdIsRead(sep, id, rest);
      assert sep + "<" + id + ">" + rest == WrittenIds(ids, separators, last);
      WrittenIdsAreRead(ids[1..], separators[1..], last);
    }
  }

  lemma OneIdIsRead(sep: string, id: string, rest: string)
    requires '<' !in sep && '>' !in id
    ensures MessageIds(sep + "<" + id + ">" + rest) == [id] + MessageIds(rest)
  {
    hide MessageIds, FirstBrackets;
    var header := sep + "<" + id + ">" + rest;
    var end := |sep| + |id| + 1;
    forall j | 0 <= j < |sep|
      ensures header[j] != '<'
    {
      assert header[j] == sep[j] && sep[j] in sep;
    }
    forall j | |sep| < j < end
      ensures header[j] != '>'
    {
      assert header[j] == id[j - |sep| - 1] && id[j - |sep| - 1] in id;
    }
    FirstBracketsAre(header, |sep|, end);
    NextId(header);
    assert header[|sep| + 1..end] == id;
    assert header[end + 1..] == rest;
  }

  lemma FirstBracketsAre(header: string, start: nat, end: nat)
    requires start < end < |header| && header[start] == '<' && header[end] == '>'
    requires forall j | 0 <= j < start :: header[j] != '<'
    requires forall j | start < j < end :: header[j] != '>'
    ensures FirstBrackets(header) == Some((start, end))
  {
    IndexFromIs(header, '<', 0, start);
    IndexFromIs(header, '>', start, end);
  }

  // ---- Queue ids -----------------------------------------------------------

  /** A UUID as its 32 hexadecimal digits. */
  type Uuid = u: seq<nat> | |u| == 32 && forall i | 0 <= i < 32 :: u[i] < 16
    witness seq(32, i => 0)

  function HexDigit(n: nat): (c: char)
    requires n < 16
    ensures HexValue(c) == Some(n) && LowerChar(c) == c && c != '-' && c != '@' && c != '<' && c != '>'
  {
    "0123456789abcdef"[n]
  }

  predicate IsDash(i: int) {
    i == 8 || i == 13 || i == 18 || i == 23
  }

  /** Where the digit numbered n is in the 36-character form, and back. */
  function Place(n: nat): (r: nat)
    requires n < 32
    ensures r < 36 && !IsDash(r) && DigitAt(r) == n
  {
    n + (if n >= 8 then 1 else 0) + (if n >= 12 then 1 else 0) + (if n >= 16 then 1 else 0) + (if n >= 20 then 1 else 0)
  }

  function DigitAt(i: nat): (n: nat)
    requires i < 36 && !IsDash(i)
    ensures n < 32
  {
    i - (if i > 8 then 1 else 0) - (if i > 13 then 1 else 0) - (if i > 18 then 1 else 0) - (if i > 23 then 1 else 0)
  }

  function UuidText(u: Uuid): (r: string)
    ensures |r| == 36 && '@' !in r && '<' !in r && '>' !in r
    ensures Lower(r) == r
  {
    seq(36, i requires 0 <= i < 36 => if IsDash(i) then '-' else HexDigit(u[DigitAt(i)]))
  }

  function ParseUuid(s: string): (r: Option<Uuid>)
    requires |s| == 36
  {
    if (forall i | 0 <= i < 36 :: if IsDash(i) then s[i] == '-' else HexValue(s[i]).Some?) then
      Some(seq(32, n requires 0 <= n < 32 => HexValue(s[Place(n)]).value))
    else None
  }

  /** Exactly the texts that parse to a UUID: its own, in either case. */
  lemma ParsesExactly(s: string, u: Uuid)
    requires |s| == 36
    ensures ParseUuid(s) == Some(u) <==> Lower(s) == UuidText(u)
  {
    if ParseUuid(s) == Some(u) {
      forall i | 0 <= i < 36
        ensures Lower(s)[i] == UuidText(u)[i]
      {
        if !IsDash(i) {
          assert Place(DigitAt(i)) == i;
          assert u[DigitAt(i)] == HexValue(s[i]).value;
          LowerHex(s[i]);
        }
      }
    }
    if Lower(s) == UuidText(u) {
      forall i | 0 <= i < 36
        ensures if IsDash(i) then s[i] == '-' else HexValue(s[i]) == Some(u[DigitAt(i)])
      {
        assert Lower(s)[i] == UuidText(u)[i];
        if !IsDash(i) {
          LowerHexValue(s[i]);
        }
      }
      forall n | 0 <= n < 32
        ensures HexValue(s[Place(n)]) == Some(u[n])
      {
        assert DigitAt(Place(n)) == n;
      }
      assert ParseUuid(s).Some? && ParseUuid(s).value == u;
    }
  }

  lemma LowerHex(c: char)
    requires HexValue(c).Some?
    ensures LowerChar(c) == HexDigit(HexValue(c).value)
  {
  }

  lemma LowerHexValue(c: char)
    ensures HexValue(LowerChar(c)) == HexValue(c)
  {
  }

  /** The queue row a message id names: the id in <id@fqdn>. */
  function QueueId(id: string, fqdn: string): (r: Option<Uuid>) {
    match LastIndexOf(id, '@')
    case None => None
    case Some(at) =>
      if fqdn == "" || Lower(id[at + 1..]) != Lower(fqdn) || at != 36 then None
      else ParseUuid(id[..at])
  }

  /** A message id names a queue row exactly when it is that row's id in its
      canonical form, in either case, at the sender's own domain. */
  lemma NamesExactly(id: string, fqdn: string, u: Uuid)
    ensures QueueId(id, fqdn) == Some(u) <==>
              fqdn != "" && |id| > 36 && Lower(id[..36]) == UuidText(u) && id[36] == '@'
              && '@' !in id[37..] && Lower(id[37..]) == Lower(fqdn)
  {
    assert forall j | 37 <= j < |id| :: id[j] == id[37..][j - 37];
    if |id| > 36 {
      ParsesExactly(id[..36], u);
    }
  }

  // ---- The report ----------------------------------------------------------

  datatype Recipient = Recipient(
    finalRecipient: string,
    originalRecipient: string,
    action: string,
    status: string,
    smtpCode: nat,
    asCode: string)

  datatype Report = Report(
    messageId: string,
    originalMessageId: string,
    originalQueueHeader: string,
    inReplyTo: string,
    references: string,
    recipients: seq<Recipient>)

  /** The headers that decide, in the order they are read. */
  function Sources(r: Report): (sources: seq<string>) {
    if r.originalMessageId != "" || r.originalQueueHeader != "" then [r.originalMessageId, r.originalQueueHeader]
    else if r.inReplyTo != "" then [r.inReplyTo]
    else [r.references]
  }

  function FirstQueueId(ids: seq<string>, fqdn: string): (r: Option<Uuid>)
    ensures r.Some? ==> exists i | 0 <= i < |ids| :: QueueId(ids[i], fqdn) == r
    ensures r.None? ==> forall i | 0 <= i < |ids| :: QueueId(ids[i], fqdn) == None
  {
    if ids == [] then None
    else if QueueId(ids[0], fqdn).Some? then QueueId(ids[0], fqdn)
    else FirstQueueId(ids[1..], fqdn)
  }

  function IdsOf(sources: seq<string>): (r: seq<string>) {
    if sources == [] then [] else MessageIds(sources[0]) + IdsOf(sources[1..])
  }

  function ReportQueueId(r: Report, fqdn: string): (id: Option<Uuid>) {
    FirstQueueId(IdsOf(Sources(r)), fqdn)
  }

  method FindQueueId(r: Report, fqdn: string) returns (id: Option<Uuid>)
    ensures id == ReportQueueId(r, fqdn)
  {
    hide QueueId, MessageIds;
    var sources := Sources(r);
    for s := 0 to |sources|
      invariant FirstQueueId(IdsOf(sources), fqdn) == FirstQueueId(IdsOf(sources[s..]), fqdn)
    {
      var ids := SplitMessageIds(sources[s]);
      FirstOfJoined(ids, IdsOf(sources[s + 1..]), fqdn);
      assert sources[s..][1..] == sources[s + 1..];
      for i := 0 to |ids|
        invariant FirstQueueId(ids, fqdn) == FirstQueueId(ids[i..], fqdn)
      {
        var found := QueueId(ids[i], fqdn);
        if found.Some? {
          return found;
        }
        assert ids[i..][1..] == ids[i + 1..];
      }
    }
    return None;
  }

  lemma {:induction false} FirstOfJoined(a: seq<string>, b: seq<string>, fqdn: string)
    ensures FirstQueueId(a + b, fqdn) ==
              if FirstQueueId(a, fqdn).Some? then FirstQueueId(a, fqdn) else FirstQueueId(b, fqdn)
  {
    if a == [] {
      assert a + b == b;
    } else {
      assert (a + b)[1..] == a[1..] + b;
      FirstOfJoined(a[1..], b, fqdn);
    }
  }

  function Bracketed(u: Uuid, fqdn: string): (r: string) {
    "<" + UuidText(u) + "@" + fqdn + ">"
  }

  lemma OwnIdIsNamed(u: Uuid, fqdn: string)
    requires fqdn != "" && '@' !in fqdn
    ensures QueueId(UuidText(u) + "@" + fqdn, fqdn) == Some(u)
  {
    var id := UuidText(u) + "@" + fqdn;
    assert id[..36] == UuidText(u) && id[36] == '@' && id[37..] == fqdn;
    NamesExactly(id, fqdn, u);
  }

  lemma BracketedIsRead(u: Uuid, fqdn: string)
    requires fqdn != "" && '@' !in fqdn && '>' !in fqdn
    ensures MessageIds(Bracketed(u, fqdn)) == [UuidText(u) + "@" + fqdn]
  {
    var id := UuidText(u) + "@" + fqdn;
    OneIdIsRead("", id, "");
    assert "" + "<" + id + ">" + "" == Bracketed(u, fqdn);
    assert MessageIds("") == [];
  }

  lemma ReturnedIds(r: Report)
    ensures r.originalMessageId != "" || r.originalQueueHeader != "" ==>
              IdsOf(Sources(r)) == MessageIds(r.originalMessageId) + MessageIds(r.originalQueueHeader)
    ensures r.originalMessageId == r.originalQueueHeader == "" ==>
              IdsOf(Sources(r)) == MessageIds(if r.inReplyTo != "" then r.inReplyTo else r.references)
  {
    hide MessageIds;
    if r.originalMessageId != "" || r.originalQueueHeader != "" {
      assert Sources(r)[1..] == [r.originalQueueHeader];
      assert IdsOf([r.originalQueueHeader]) == MessageIds(r.originalQueueHeader) + [];
    }
  }

  /** What the mailer writes is read back: in the returned Message-ID, in the
      queue header beside a foreign one, or in the report's own In-Reply-To or
      References when no header was returned. */
  lemma WrittenQueueIdIsRead(r: Report, fqdn: string, u: Uuid)
    requires fqdn != "" && '@' !in fqdn && '>' !in fqdn
    ensures r.originalMessageId == Bracketed(u, fqdn) ==> ReportQueueId(r, fqdn) == Some(u)
    ensures r.originalQueueHeader == Bracketed(u, fqdn)
            && FirstQueueId(MessageIds(r.originalMessageId), fqdn) == None ==>
              ReportQueueId(r, fqdn) == Some(u)
    ensures r.originalMessageId == r.originalQueueHeader == ""
            && (r.inReplyTo == Bracketed(u, fqdn) || (r.inReplyTo == "" && r.references == Bracketed(u, fqdn))) ==>
              ReportQueueId(r, fqdn) == Some(u)
  {
    hide MessageIds, QueueId, UuidText, IdsOf, Sources;
    BracketedIsRead(u, fqdn);
    OwnIdIsNamed(u, fqdn);
    ReturnedIds(r);
    assert Bracketed(u, fqdn) != "";
    FirstOfJoined(MessageIds(r.originalMessageId), MessageIds(r.originalQueueHeader), fqdn);
  }

  /** Once a header was returned, the report's own headers cannot change whose
      mail the report is about, and a row is never named by any other header. */
  lemma ReturnedHeadersDecide(r: Report, forged: Report, fqdn: string)
    requires r.originalMessageId != "" || r.originalQueueHeader != ""
    requires forged == r.(inReplyTo := forged.inReplyTo, references := forged.references,
                          messageId := forged.messageId, recipients := forged.recipients)
    ensures ReportQueueId(forged, fqdn) == ReportQueueId(r, fqdn)
    ensures ReportQueueId(r, fqdn).Some? ==>
              exists id | id in MessageIds(r.originalMessageId) + MessageIds(r.originalQueueHeader) ::
                QueueId(id, fqdn) == ReportQueueId(r, fqdn)
  {
    hide MessageIds, QueueId, IdsOf;
    ReturnedIds(r);
  }

  // ---- The status blocks ---------------------------------------------------

  const MAX_RECIPIENTS := 100

  /** The fields of one block, their names in canonical form. */
  type Fields = map<string, string>

  /** One read of a block, and whether the part ended or broke with it. */
  datatype BlockRead = BlockRead(fields: Fields, end: End)

  datatype End = More | PartEnds | Broken

  /** The part as its reader gives it: the blocks, and whether the limit on its
      size was used up, which also ends it. */
  datatype StatusPart = StatusPart(input: seq<BlockRead>, overlong: bool)

  function Field(fields: Fields, name: string): (r: string) {
    if name in fields then fields[name] else ""
  }

  datatype StatusError = BrokenPart | TooMany | TooLong

  /** The blocks of message/delivery-status, read until the part ends. Reads
      that stop without an end count as the part ending. */
  function ReadBlocks(input: seq<BlockRead>, blocks: seq<Fields>): (r: Result<seq<Fields>, StatusError>)
    decreases |input|
  {
    if input == [] then Ok(blocks)
    else
      var read := input[0];
      var now := if read.fields == map[] then blocks else blocks + [read.fields];
      match read.end
      case PartEnds => Ok(now)
      case Broken => Err(BrokenPart)
      case More => if |now| > MAX_RECIPIENTS + 1 then Err(TooMany) else ReadBlocks(input[1..], now)
  }

  /** The blocks with fields in them, in order. */
  function Filled(input: seq<BlockRead>): (r: seq<Fields>) {
    if input == [] then []
    else (if input[0].fields == map[] then [] else [input[0].fields]) + Filled(input[1..])
  }

  /** What is read of a part whose blocks only end with it: every block, in
      order, exactly when at most MAX_RECIPIENTS + 1 come before the last read;
      the last one may be one more. */
  lemma {:induction false} ReadsExactly(input: seq<BlockRead>, blocks: seq<Fields>)
    requires input != [] && input[|input| - 1].end.PartEnds?
    requires forall i | 0 <= i < |input| - 1 :: input[i].end.More?
    requires |blocks| <= MAX_RECIPIENTS + 1
    ensures var all := blocks + Filled(input);
            var early := blocks + Filled(input[..|input| - 1]);
            && ReadBlocks(input, blocks) == (if |early| <= MAX_RECIPIENTS + 1 then Ok(all) else Err(TooMany))
            && (ReadBlocks(input, blocks).Ok? ==> |ReadBlocks(input, blocks).value| <= MAX_RECIPIENTS + 2)
  {
    var read := input[0];
    var now := if read.fields == map[] then blocks else blocks + [read.fields];
    if |input| == 1 {
      assert Filled([]) == [];
      assert input[1..] == [] && input[..0] == [];
      assert now == blocks + Filled(input);
    } else {
      FilledFirst(input, blocks);
      FilledFirst(input[..|input| - 1], blocks);
      assert input[..|input| - 1][1..] == input[1..][..|input| - 2];
      if |now| <= MAX_RECIPIENTS + 1 {
        ReadsExactly(input[1..], now);
      } else {
        assert |now + Filled(input[1..][..|input| - 2])| >= |now|;
      }
    }
  }

  lemma FilledFirst(input: seq<BlockRead>, blocks: seq<Fields>)
    requires input != []
    ensures var now := if input[0].fields == map[] then blocks else blocks + [input[0].fields];
            blocks + Filled(input) == now + Filled(input[1..])
  {
  }

  // ---- Address fields ------------------------------------------------------

  predicate IsPlainChar(c: char) {
    c != ' ' && c != '\t' && c != '<' && c != '>'
  }

  predicate IsPlain(address: string) {
    '@' in address && forall i | 0 <= i < |address| :: IsPlainChar(address[i])
  }

  function Unbracketed(s: string): (r: string) {
    var t := if "<" <= s then s[1..] else s;
    if t != "" && t[|t| - 1] == '>' then t[..|t| - 1] else t
  }

  /** The address of a field "rfc822; user@example.com", lower-cased, or empty. */
  function AddressField(field: string): (r: string)
    ensures r == "" || (IsPlain(r) && Lower(r) == r)
  {
    match IndexFrom(field, ';', 0)
    case None => ""
    case Some(cut) =>
      if Lower(TrimSpace(field[..cut])) !in ["rfc822", "utf-8"] then ""
      else
        var address := Unbracketed(TrimSpace(field[cut + 1..]));
        if IsPlain(address) then PlainLower(address); Lower(address) else ""
  }

  lemma PlainLower(address: string)
    requires IsPlain(address)
    ensures IsPlain(Lower(address)) && Lower(Lower(address)) == Lower(address)
  {
    var i :| 0 <= i < |address| && address[i] == '@';
    assert Lower(address)[i] == '@';
    LowerTwice(address);
  }

  lemma PadsAreTrimmed(left: string, text: string, right: string)
    requires AllOf(left, IsBlank) && AllOf(right, IsBlank)
    requires text != "" && !IsBlank(text[0]) && !IsBlank(text[|text| - 1])
    ensures TrimSpace(left + text + right) == text
  {
    TrimPads(left, text, right, IsBlank);
  }

  /** A kind of address a report may name, in any case. */
  predicate IsKind(kind: string) {
    Lower(kind) == "rfc822" || Lower(kind) == "utf-8"
  }

  /** An address as a report writes it — of either kind, in any case, bare or in
      brackets, with any white space around both — is read whole. */
  lemma WrittenAddressIsRead(kind: string, address: string, brackets: bool, a: string, b: string, c: string, d: string)
    requires IsKind(kind) && AllOf(a, IsBlank) && AllOf(b, IsBlank) && AllOf(c, IsBlank) && AllOf(d, IsBlank)
    requires IsPlain(address) && !IsBlank(address[0]) && !IsBlank(address[|address| - 1])
    ensures AddressField((a + kind + b) + ";" + (c + (if brackets then "<" + address + ">" else address) + d))
            == Lower(address)
  {
    hide TrimSpace, Lower, Unbracketed;
    KindHasEnds(kind);
    PadsAreTrimmed(a, kind, b);
    var text := if brackets then "<" + address + ">" else address;
    TextHasEnds(address, brackets);
    PadsAreTrimmed(c, text, d);
    BracketsAreOff(address);
    KindHasNoCut(kind);
    FieldIsCut(a + kind + b, c + text + d);
  }

  lemma TextHasEnds(address: string, brackets: bool)
    requires address != "" && !IsBlank(address[0]) && !IsBlank(address[|address| - 1])
    ensures var text := if brackets then "<" + address + ">" else address;
            text != "" && !IsBlank(text[0]) && !IsBlank(text[|text| - 1])
  {
  }

  lemma KindHasEnds(kind: string)
    requires IsKind(kind)
    ensures kind != "" && !IsBlank(kind[0]) && !IsBlank(kind[|kind| - 1])
  {
    assert Lower(kind)[0] == LowerChar(kind[0]) && Lower(kind)[|kind| - 1] == LowerChar(kind[|kind| - 1]);
  }

  lemma KindHasNoCut(kind: string)
    requires IsKind(kind)
    ensures ';' !in kind
  {
    forall i | 0 <= i < |kind|
      ensures kind[i] != ';'
    {
      assert Lower(kind)[i] == LowerChar(kind[i]);
    }
  }

  lemma BracketsAreOff(address: string)
    requires IsPlain(address)
    ensures Unbracketed(address) == address
    ensures Unbracketed("<" + address + ">") == address
  {
    var bracketed := "<" + address + ">";
    assert IsPlainChar(address[0]) && IsPlainChar(address[|address| - 1]);
    assert "<" <= bracketed;
    assert bracketed[1..] == address + ">";
    assert (address + ">")[..|address|] == address;
  }

  /** What a field is read as, cut at its first semicolon. */
  lemma FieldIsCut(kind: string, rest: string)
    requires forall i | 0 <= i < |kind| :: kind[i] != ';'
    ensures AddressField(kind + ";" + rest) ==
              if Lower(TrimSpace(kind)) in ["rfc822", "utf-8"] && IsPlain(Unbracketed(TrimSpace(rest)))
              then Lower(Unbracketed(TrimSpace(rest))) else ""
  {
    hide IndexFrom, TrimSpace, Lower, Unbracketed, IsPlain;
    var field := kind + ";" + rest;
    IndexFromIs(field, ';', 0, |kind|);
    assert field[..|kind|] == kind;
    assert field[|kind| + 1..] == rest;
  }

  // ---- What a block says ---------------------------------------------------

  predicate IsDigit(c: char) {
    '0' <= c <= '9'
  }

  predicate IsDigits(s: string) {
    forall i | 0 <= i < |s| :: IsDigit(s[i])
  }

  predicate DigitsIn(s: string, from: nat, to: nat)
    requires from <= to <= |s|
  {
    forall i | from <= i < to :: IsDigit(s[i])
  }

  predicate IsClass(c: char) {
    c == '2' || c == '4' || c == '5'
  }

  /** A code whose second dot is at an index. */
  predicate IsCodeWith(s: string, dot: nat) {
    3 <= dot <= 5 && dot + 2 <= |s| <= dot + 4
    && IsClass(s[0]) && s[1] == '.' && s[dot] == '.' && DigitsIn(s, 2, dot) && DigitsIn(s, dot + 1, |s|)
  }

  /** An RFC 3463 code: class 2, 4 or 5, then a subject and a detail of one to
      three digits each. */
  predicate IsStatusCode(s: string) {
    exists dot: nat | dot < |s| :: IsCodeWith(s, dot)
  }

  /** Whether a code says only its class. */
  predicate IsClassOnly(s: string) {
    |s| >= 4 && s[|s| - 4..] == ".0.0"
  }

  /** The code kept of a block: its Status, or the Diagnostic-Code's when the
      Status is missing or says only the class the other details. */
  function ChosenStatus(field: string, diagnostic: string): (r: string) {
    var status := if IsStatusCode(field) then field else "";
    if status == "" then diagnostic
    else if IsClassOnly(status) && diagnostic != "" && diagnostic[0] == status[0] then diagnostic
    else status
  }

  /** The code kept is a code or none; it is the Status when that is one, but
      for its class alone: then, and with no Status, it is the
      Diagnostic-Code's, if of that class. */
  lemma ChosenStatusIsSound(field: string, diagnostic: string)
    requires diagnostic == "" || IsStatusCode(diagnostic)
    ensures var r := ChosenStatus(field, diagnostic);
            && (r == "" || IsStatusCode(r))
            && (IsStatusCode(field) ==> r != "" && r[0] == field[0])
            && (r == "" <==> !IsStatusCode(field) && diagnostic == "")
            && (r == field || r == diagnostic)
            && ((r != field && r != "")
                <==> (diagnostic != "" && diagnostic != field
                      && (!IsStatusCode(field) || (IsClassOnly(field) && diagnostic[0] == field[0]))))
  {
  }

  // ---- The Diagnostic-Code -------------------------------------------------

  predicate IsWordChar(c: char) {
    'a' <= c <= 'z' || 'A' <= c <= 'Z' || '0' <= c <= '9' || c == '_'
  }

  /** Where a run of digits from an index ends. */
  function DigitsEnd(s: string, from: nat): (r: nat)
    requires from <= |s|
    ensures from <= r <= |s| && DigitsIn(s, from, r) && (r < |s| ==> !IsDigit(s[r]))
    decreases |s| - from
  {
    if from == |s| || !IsDigit(s[from]) then from else DigitsEnd(s, from + 1)
  }

  /** An RFC 3463 code at an index, a word of its own. */
  function CodeAt(s: string, i: nat): (r: Option<string>)
    requires i <= |s|
    ensures r.Some? ==> IsStatusCode(r.value)
  {
    if i + 2 > |s| || !IsClass(s[i]) || s[i + 1] != '.' || (i > 0 && IsWordChar(s[i - 1])) then None
    else
      var dot := DigitsEnd(s, i + 2);
      if !(1 <= dot - (i + 2) <= 3) || dot == |s| || s[dot] != '.' then None
      else
        var end := DigitsEnd(s, dot + 1);
        if !(1 <= end - (dot + 1) <= 3) || (end < |s| && IsWordChar(s[end])) then None
        else
          CodeIsOne(s, i, dot, end);
          Some(s[i..end])
  }

  lemma CodeIsOne(s: string, i: nat, dot: nat, end: nat)
    requires i + 2 <= dot < end <= |s| && IsClass(s[i]) && s[i + 1] == '.' && s[dot] == '.'
    requires DigitsIn(s, i + 2, dot) && 1 <= dot - (i + 2) <= 3
    requires DigitsIn(s, dot + 1, end) && 1 <= end - (dot + 1) <= 3
    ensures IsStatusCode(s[i..end])
  {
    assert IsCodeWith(s[i..end], dot - i);
  }

  lemma {:induction false} DigitsEndIs(s: string, from: nat, to: nat)
    requires from <= to <= |s| && DigitsIn(s, from, to) && (to < |s| ==> !IsDigit(s[to]))
    ensures DigitsEnd(s, from) == to
    decreases |s| - from
  {
    if from < to {
      DigitsEndIs(s, from + 1, to);
    }
  }

  /** A code written at an index with no letter or digit on either side. */
  predicate StandsAt(s: string, i: nat, code: string) {
    && IsStatusCode(code) && i + |code| <= |s| && s[i..i + |code|] == code
    && (i > 0 ==> !IsWordChar(s[i - 1])) && (i + |code| < |s| ==> !IsWordChar(s[i + |code|]))
  }

  lemma StandingCodeIsFound(s: string, i: nat, code: string)
    requires i <= |s| && StandsAt(s, i, code)
    ensures CodeAt(s, i) == Some(code)
  {
    hide DigitsEnd;
    var end := i + |code|;
    var k: nat :| k < |code| && IsCodeWith(code, k);
    assert forall j | i <= j < end :: s[j] == code[j - i];
    DigitsEndIs(s, i + 2, i + k);
    DigitsEndIs(s, i + k + 1, end);
  }

  lemma FoundCodeStands(s: string, i: nat)
    requires i <= |s| && CodeAt(s, i).Some?
    ensures StandsAt(s, i, CodeAt(s, i).value)
  {
    hide DigitsEnd, IsStatusCode;
  }

  /** Codes are found exactly where they stand. */
  lemma CodeAtExactly(s: string, i: nat, code: string)
    requires i <= |s|
    ensures CodeAt(s, i) == Some(code) <==> StandsAt(s, i, code)
  {
    hide CodeAt, StandsAt;
    if CodeAt(s, i) == Some(code) {
      FoundCodeStands(s, i);
    }
    if StandsAt(s, i, code) {
      StandingCodeIsFound(s, i, code);
    }
  }

  /** The digits of an AS(…) token at an index. */
  function TokenAt(s: string, i: nat): (r: Option<string>)
    requires i <= |s|
    ensures r.Some? ==> IsAsCode(r.value) && r.value != ""
  {
    if i + 3 > |s| || s[i..i + 3] != "AS(" || (i > 0 && IsWordChar(s[i - 1])) then None
    else
      var end := DigitsEnd(s, i + 3);
      if !(1 <= end - (i + 3) <= 12) || end == |s| || s[end] != ')' then None else Some(s[i + 3..end])
  }

  predicate IsAsCode(s: string) {
    IsDigits(s) && |s| <= 12
  }

  /** The leftmost code, and the leftmost token, from an index on. */
  function FirstCode(s: string, from: nat): (r: string)
    requires from <= |s|
    ensures r == "" || IsStatusCode(r)
    decreases |s| - from
  {
    if CodeAt(s, from).Some? then CodeAt(s, from).value
    else if from == |s| then ""
    else FirstCode(s, from + 1)
  }

  function FirstToken(s: string, from: nat): (r: string)
    requires from <= |s|
    ensures IsAsCode(r)
    decreases |s| - from
  {
    if TokenAt(s, from).Some? then TokenAt(s, from).value
    else if from == |s| then ""
    else FirstToken(s, from + 1)
  }

  /** The code found is the one that stands first. */
  lemma {:induction false} FirstCodeExactly(s: string, from: nat, code: string)
    requires from <= |s| && code != ""
    ensures FirstCode(s, from) == code <==>
              exists i | from <= i <= |s| ::
                CodeAt(s, i) == Some(code) && forall j | from <= j < i :: CodeAt(s, j).None?
    decreases |s| - from
  {
    hide CodeAt;
    if CodeAt(s, from).None? && from < |s| {
      FirstCodeExactly(s, from + 1, code);
    }
  }

  /** The reply code at the start: three digits, then a blank, a dash or the end. */
  function ReplyCode(s: string): (n: nat) {
    var t := TrimLeft(s, IsSmtpBlank);
    if |t| < 3 || !IsClass(t[0]) || !IsDigit(t[1]) || !IsDigit(t[2]) || (|t| > 3 && t[3] != ' ' && t[3] != '-') then 0
    else 100 * DigitValue(t[0]) + 10 * DigitValue(t[1]) + DigitValue(t[2])
  }

  lemma ReplyCodeIsAReply(s: string)
    ensures ReplyCode(s) == 0 || 200 <= ReplyCode(s) < 600
  {
    hide TrimLeft;
  }

  predicate IsSmtpBlank(c: char) {
    IsBlank(c) && c != '\U{b}'
  }

  function DigitValue(c: char): (n: nat)
    requires IsDigit(c)
    ensures n < 10
  {
    c as int - '0' as int
  }

  /** What a Diagnostic-Code of type smtp carries. */
  datatype Diagnostic = Diagnostic(reply: nat, code: string, asCode: string)

  function DiagnosticOf(field: string): (d: Diagnostic)
    ensures (d.code == "" || IsStatusCode(d.code)) && IsAsCode(d.asCode)
  {
    match IndexFrom(field, ';', 0)
    case None => Diagnostic(0, "", "")
    case Some(cut) =>
      var text := field[cut + 1..];
      if Lower(TrimSpace(field[..cut])) != "smtp" then Diagnostic(0, "", "")
      else Diagnostic(ReplyCode(text), FirstCode(text, 0), FirstToken(text, 0))
  }

  lemma DiagnosticReplyIsAReply(field: string)
    ensures DiagnosticOf(field).reply == 0 || 200 <= DiagnosticOf(field).reply < 600
  {
    hide ReplyCode, FirstCode, FirstToken, TrimSpace, Lower;
    var cut := IndexFrom(field, ';', 0);
    if cut.Some? {
      ReplyCodeIsAReply(field[cut.value + 1..]);
    }
  }

  /** The first word of a field, without the white space around it. */
  function FirstWord(s: string): (r: string)
    ensures forall i | 0 <= i < |r| :: !IsBlank(r[i])
  {
    UntilBlank(TrimLeft(s, IsBlank))
  }

  function UntilBlank(s: string): (r: string)
    ensures r <= s && forall i | 0 <= i < |r| :: !IsBlank(r[i])
  {
    if s == "" || IsBlank(s[0]) then "" else [s[0]] + UntilBlank(s[1..])
  }

  /** One recipient's block, from its fields alone. */
  function RecipientOf(block: Fields): (r: Recipient)
    ensures (r.status == "" || IsStatusCode(r.status)) && IsAsCode(r.asCode)
  {
    var diagnostic := DiagnosticOf(Field(block, "Diagnostic-Code"));
    var status := FirstWord(Field(block, "Status"));
    ChosenStatusIsSound(status, diagnostic.code);
    Recipient(
      AddressField(Field(block, "Final-Recipient")),
      AddressField(Field(block, "Original-Recipient")),
      Lower(FirstWord(Field(block, "Action"))),
      ChosenStatus(status, diagnostic.code),
      diagnostic.reply,
      diagnostic.asCode)
  }

  /** Whether a block is a recipient's: any but a first one that names none. */
  predicate IsRecipients(blocks: seq<Fields>, i: nat)
    requires i < |blocks|
  {
    i > 0 || Field(blocks[i], "Final-Recipient") != "" || Field(blocks[i], "Action") != ""
  }

  function RecipientsOf(blocks: seq<Fields>): (rs: seq<Recipient>)
    ensures |rs| <= |blocks|
  {
    if blocks == [] then []
    else
      var last := |blocks| - 1;
      RecipientsOf(blocks[..last]) + if IsRecipients(blocks, last) then [RecipientOf(blocks[last])] else []
  }

  /** Every recipient is one of the part's own blocks. */
  lemma {:induction false} RecipientIsABlock(blocks: seq<Fields>, r: Recipient)
    requires r in RecipientsOf(blocks)
    ensures exists i | 0 <= i < |blocks| :: IsRecipients(blocks, i) && r == RecipientOf(blocks[i])
  {
    hide RecipientOf;
    var last := |blocks| - 1;
    var before := blocks[..last];
    if r in RecipientsOf(before) {
      RecipientIsABlock(before, r);
      var i :| 0 <= i < |before| && IsRecipients(before, i) && r == RecipientOf(before[i]);
      assert IsRecipients(blocks, i) && before[i] == blocks[i];
    } else {
      assert IsRecipients(blocks, last) && r == RecipientOf(blocks[last]);
    }
  }

  function ReadStatus(part: StatusPart): (r: Result<seq<Recipient>, StatusError>) {
    match ReadBlocks(part.input, [])
    case Err(error) => Err(error)
    case Ok(blocks) => if part.overlong then Err(TooLong) else Ok(RecipientsOf(blocks))
  }

  /** The recipients of message/delivery-status, block by block. */
  method ReadStatusPart(part: StatusPart) returns (r: Result<seq<Recipient>, StatusError>)
    ensures r == ReadStatus(part)
  {
    hide RecipientOf;
    var blocks: seq<Fields> := [];
    var n := 0;
    while n < |part.input|
      invariant n <= |part.input|
      invariant ReadBlocks(part.input, []) == ReadBlocks(part.input[n..], blocks)
    {
      var read := part.input[n];
      assert part.input[n..][1..] == part.input[n + 1..];
      if read.fields != map[] {
        blocks := blocks + [read.fields];
      }
      if read.end.PartEnds? {
        break;
      }
      if read.end.Broken? {
        return Err(BrokenPart);
      }
      if |blocks| > MAX_RECIPIENTS + 1 {
        return Err(TooMany);
      }
      n := n + 1;
    }
    assert ReadBlocks(part.input, []) == Ok(blocks);
    if part.overlong {
      return Err(TooLong);
    }
    var recipients: seq<Recipient> := [];
    for i := 0 to |blocks|
      invariant recipients == RecipientsOf(blocks[..i])
    {
      assert blocks[..i + 1][..i] == blocks[..i];
      if i == 0 && Field(blocks[i], "Final-Recipient") == "" && Field(blocks[i], "Action") == "" {
        continue;
      }
      recipients := recipients + [RecipientOf(blocks[i])];
    }
    assert blocks[..|blocks|] == blocks;
    return Ok(recipients);
  }

  // ---- The message ---------------------------------------------------------

  /** What is read of a report's headers and of the headers it returned. */
  datatype Headers = Headers(
    messageId: string,
    originalMessageId: string,
    originalQueueHeader: string,
    inReplyTo: string,
    references: string)

  /** A message: no report, one whose parts cannot be read, or a report's
      headers and its status part. */
  datatype Mime = NotDsn | Garbled | Delivery(headers: Headers, status: StatusPart)

  datatype Parsed = NotAReport | CannotBeRead | Reads(report: Report)

  function ReportOf(h: Headers, recipients: seq<Recipient>): (r: Report) {
    Report(h.messageId, h.originalMessageId, h.originalQueueHeader, h.inReplyTo, h.references, recipients)
  }

  function Parse(m: Mime): (p: Parsed) {
    match m
    case NotDsn => NotAReport
    case Garbled => CannotBeRead
    case Delivery(headers, status) =>
      match ReadStatus(status)
      case Err(_) => CannotBeRead
      case Ok(recipients) => Reads(ReportOf(headers, recipients))
  }

  // ---- What a code says ----------------------------------------------------

  datatype Kind = Hard | Soft | Delay | NoFailure

  function Decimal(s: string): (r: nat)
    requires IsDigits(s)
  {
    if s == "" then 0 else Decimal(s[..|s| - 1]) * 10 + (s[|s| - 1] as int - '0' as int)
  }

  /** strconv.Atoi: decimal digits after an optional sign. */
  function Atoi(s: string): (r: Option<int>) {
    if s != "" && IsDigits(s) then Some(Decimal(s))
    else if |s| > 1 && s[0] in "+-" && IsDigits(s[1..]) then Some((if s[0] == '-' then -1 else 1) * Decimal(s[1..]))
    else None
  }

  predicate RecipientAddressStatus(status: string) {
    "5.1." <= status
    && var n := Atoi(status[4..]);
       n.Some? && n.value >= 0 && (n.value <= 6 || n.value == 10)
  }

  const EXCHANGE_RECIPIENT_UNKNOWN := "201806281"

  function Classify(r: Recipient): (k: Kind) {
    if r.action == "failed" then
      if RecipientAddressStatus(r.status) || (r.status == "5.4.1" && r.asCode == EXCHANGE_RECIPIENT_UNKNOWN) then Hard
      else Soft
    else if r.action == "delayed" then Delay
    else NoFailure
  }

  function Digits(n: nat): (s: string)
    ensures s != "" && IsDigits(s) && Decimal(s) == n
  {
    var d := ('0' as int + n % 10) as char;
    if n < 10 then [d]
    else
      var s := Digits(n / 10) + [d];
      assert s[..|s| - 1] == Digits(n / 10);
      s
  }

  /** Of all status codes exactly those of class 5 and subject 1 whose detail,
      however many digits it has, is 0 to 6 or 10 are the recipient's address's. */
  lemma AddressStatusesExactly(status: string)
    requires IsStatusCode(status)
    ensures RecipientAddressStatus(status) <==>
              "5.1." <= status && IsDigits(status[4..]) && (Decimal(status[4..]) <= 6 || Decimal(status[4..]) == 10)
  {
    if "5.1." <= status {
      var dot: nat :| dot < |status| && IsCodeWith(status, dot);
      assert status[..4] == "5.1." && status[3] == '.';
      assert DigitsIn(status, 2, dot) && !IsDigit(status[3]);
    }
  }
}
