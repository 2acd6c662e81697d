// The addresses core is asked about and answers for, and what its answers are
// read as, told character by character and field by field.
module ConsentAddresses {
  import opened Options
  import opened Text
  import opened Consent

  // ---- Keys ----------------------------------------------------------------

  predicate IsWhite(c: char) {
    c == ' ' || c == '\t' || c == '\n' || c == '\r' || c == '\U{b}' || c == '\U{c}'
  }

  predicate AllWhite(s: string) {
    forall i | 0 <= i < |s| :: IsWhite(s[i])
  }

  /** An address as core compares it: no upper-case letter and no white space at
      an end. */
  predicate IsKey(s: string) {
    && (forall i | 0 <= i < |s| :: !('A' <= s[i] <= 'Z'))
    && (s != "" ==> !IsWhite(s[0]) && !IsWhite(s[|s| - 1]))
  }

  /** Two characters that are one, or one letter in the two cases. */
  predicate IsSameLetter(c: char, d: char) {
    || c == d
    || ('A' <= c <= 'Z' && d as int == c as int + 32)
    || ('A' <= d <= 'Z' && c as int == d as int + 32)
  }

  predicate DifferInCase(s: string, t: string) {
    |s| == |t| && forall i | 0 <= i < |s| :: IsSameLetter(s[i], t[i])
  }

  /** White space around a text. */
  predicate IsAround(address: string, left: string, text: string, right: string) {
    AllWhite(left) && AllWhite(right) && address == left + (text + right)
  }

  /** An address is written for another text: the same but for the case of its
      letters and the white space around it. */
  ghost predicate IsWrittenAs(address: string, text: string) {
    exists left, middle, right :: IsAround(address, left, middle, right) && DifferInCase(middle, text)
  }

  lemma WhiteIsBlank(s: string)
    ensures AllWhite(s) <==> AllOf(s, IsBlank)
  {
    assert forall c :: IsWhite(c) <==> IsBlank(c);
  }

  lemma LowerIsKey(s: string)
    requires s != "" ==> !IsBlank(s[0]) && !IsBlank(s[|s| - 1])
    ensures IsKey(Lower(s)) && DifferInCase(s, Lower(s))
  {
  }

  lemma KeyIsLower(s: string, key: string)
    requires IsKey(key) && DifferInCase(s, key)
    ensures Lower(s) == key && (s != "" ==> !IsBlank(s[0]) && !IsBlank(s[|s| - 1]))
  {
    forall i | 0 <= i < |s|
      ensures LowerChar(s[i]) == key[i]
    {
      assert IsSameLetter(s[i], key[i]);
    }
  }

  /** What an address is normalized to is the one key it is written for. */
  lemma NormalizedExactly(address: string, key: string)
    ensures Normalized(address) == key <==> IsKey(key) && IsWrittenAs(address, key)
  {
    hide Trim, Lower, AllOf, AllWhite, IsKey, DifferInCase;
    if Normalized(address) == key {
      var left, right := TrimSplits(address, IsBlank);
      WhiteIsBlank(left);
      WhiteIsBlank(right);
      LowerIsKey(TrimSpace(address));
      assert IsAround(address, left, TrimSpace(address), right);
    }
    if IsKey(key) && IsWrittenAs(address, key) {
      var left, middle, right :| IsAround(address, left, middle, right) && DifferInCase(middle, key);
      KeyIsLower(middle, key);
      TrimmedIs(address, left, middle, right);
    }
  }

  lemma TrimmedIs(address: string, left: string, middle: string, right: string)
    requires IsAround(address, left, middle, right)
    requires middle != "" ==> !IsBlank(middle[0]) && !IsBlank(middle[|middle| - 1])
    ensures TrimSpace(address) == middle
  {
    hide TrimLeft, TrimRight, AllOf, AllWhite;
    WhiteIsBlank(left);
    WhiteIsBlank(right);
    assert address == left + middle + right;
    TrimPads(left, middle, right, IsBlank);
    if middle == "" {
      NothingTrimmed();
    }
  }

  lemma NothingTrimmed()
    ensures Trim("", IsBlank) == ""
  {
  }

  /** Every address is written for one key. */
  lemma OneKey(address: string, key: string, other: string)
    requires IsKey(key) && IsWrittenAs(address, key) && IsKey(other) && IsWrittenAs(address, other)
    ensures key == other
  {
    hide Normalized, IsKey, IsWrittenAs;
    NormalizedExactly(address, key);
    NormalizedExactly(address, other);
  }

  /** A trimmed address in lower case is its own key. */
  lemma KeyIsItsOwn(key: string)
    requires IsKey(key)
    ensures IsWrittenAs(key, key)
  {
    assert IsAround(key, "", key, "") && DifferInCase(key, key);
  }

  lemma WhiteIsNoKey(address: string)
    ensures IsWrittenAs(address, "") <==> AllWhite(address)
  {
    if left, middle, right :| IsAround(address, left, middle, right) && DifferInCase(middle, "") {
      assert address == left + right;
    }
    if AllWhite(address) {
      assert IsAround(address, address, "", "");
    }
  }

  /** Two addresses the same but for the case of letters and outer white space. */
  ghost predicate AreSpellings(a: string, b: string) {
    exists text :: IsWrittenAs(a, text) && IsWrittenAs(b, text)
  }

  /** Spellings of one address have one key. */
  lemma SpellingsShareTheirKey(a: string, b: string, key: string)
    requires AreSpellings(a, b) && IsKey(key)
    ensures IsWrittenAs(a, key) <==> IsWrittenAs(b, key)
  {
    hide IsWrittenAs;
    var text :| IsWrittenAs(a, text) && IsWrittenAs(b, text);
    SameAsItsText(a, text, key);
    SameAsItsText(b, text, key);
  }

  lemma SameAsItsText(address: string, text: string, key: string)
    requires IsWrittenAs(address, text) && IsKey(key)
    ensures IsWrittenAs(address, key) <==> IsWrittenAs(text, key)
  {
    hide Normalized, IsWrittenAs, IsKey, TrimSpace, Lower;
    NormalizedExactly(address, key);
    NormalizedExactly(text, key);
    assert Normalized(address) == Normalized(text) by {
      WrittenNormalizesAlike(address, text);
    }
  }

  lemma WrittenNormalizesAlike(address: string, text: string)
    requires IsWrittenAs(address, text)
    ensures Normalized(address) == Normalized(text)
  {
    hide Trim, Lower, AllWhite, AllOf, DifferInCase;
    var left, middle, right :| IsAround(address, left, middle, right) && DifferInCase(middle, text);
    WhiteIsBlank(left);
    WhiteIsBlank(right);
    assert address == left + middle + right;
    SpacePads(left, middle, right);
    CaseIsLowered(middle, text);
  }

  /** Trimming texts that differ in case leaves texts that do. */
  lemma CaseIsLowered(s: string, t: string)
    requires DifferInCase(s, t)
    ensures Lower(TrimSpace(s)) == Lower(TrimSpace(t))
  {
    hide TrimLeft, TrimRight;
    assert forall i | 0 <= i < |s| :: IsSameLetter(s[i], t[i]);
    LeftAlike(s, t);
    RightAlike(TrimLeft(s, IsBlank), TrimLeft(t, IsBlank));
    LowersAlike(TrimSpace(s), TrimSpace(t));
  }

  lemma LettersTrimAlike(s: string, t: string)
    requires DifferInCase(s, t) && s != ""
    ensures t != "" && IsBlank(s[0]) == IsBlank(t[0]) && IsBlank(s[|s| - 1]) == IsBlank(t[|t| - 1])
    ensures DifferInCase(s[1..], t[1..]) && DifferInCase(s[..|s| - 1], t[..|t| - 1])
  {
    assert IsSameLetter(s[0], t[0]) && IsSameLetter(s[|s| - 1], t[|t| - 1]);
  }

  lemma {:induction false} LeftAlike(s: string, t: string)
    requires DifferInCase(s, t)
    ensures DifferInCase(TrimLeft(s, IsBlank), TrimLeft(t, IsBlank))
  {
    hide IsSameLetter, IsBlank;
    if s != "" {
      LettersTrimAlike(s, t);
      LeftAlike(s[1..], t[1..]);
    }
  }

  lemma {:induction false} RightAlike(s: string, t: string)
    requires DifferInCase(s, t)
    ensures DifferInCase(TrimRight(s, IsBlank), TrimRight(t, IsBlank))
  {
    hide IsSameLetter, IsBlank;
    if s != "" {
      LettersTrimAlike(s, t);
      RightAlike(s[..|s| - 1], t[..|t| - 1]);
    }
  }

  lemma LowersAlike(s: string, t: string)
    requires DifferInCase(s, t)
    ensures Lower(s) == Lower(t)
  {
    forall i | 0 <= i < |s|
      ensures LowerChar(s[i]) == LowerChar(t[i])
    {
      assert IsSameLetter(s[i], t[i]);
    }
  }

  // ---- What is asked about -------------------------------------------------

  ghost predicate IsGivenAs(addresses: seq<string>, key: string) {
    key != "" && IsKey(key) && exists i | 0 <= i < |addresses| :: IsWrittenAs(addresses[i], key)
  }

  lemma GivenExactly(addresses: seq<string>, key: string)
    ensures IsGiven(addresses, key) <==> IsGivenAs(addresses, key)
  {
    hide Normalized, IsWrittenAs, IsKey;
    forall i | 0 <= i < |addresses|
      ensures Normalized(addresses[i]) == key <==> IsKey(key) && IsWrittenAs(addresses[i], key)
    {
      NormalizedExactly(addresses[i], key);
    }
  }

  /** Core is asked about exactly the keys the addresses given are written for,
      each once however often and in whatever spelling it was given, and about
      nothing for an address that is only white space. */
  lemma AskedAboutExactly(addresses: seq<string>)
    ensures var keys := Distinct(addresses);
            && (forall i, j | 0 <= i < j < |keys| :: keys[i] != keys[j])
            && (forall key :: key in keys <==> IsGivenAs(addresses, key))
  {
    hide IsGiven, IsGivenAs, Distinct;
    DistinctExactly(addresses);
    forall key
      ensures key in Distinct(addresses) <==> IsGivenAs(addresses, key)
    {
      GivenExactly(addresses, key);
    }
  }

  /** In the order they were first given. */
  ghost predicate IsFirstGivenBefore(addresses: seq<string>, key: string, later: string) {
    exists i | 0 <= i < |addresses| ::
      IsWrittenAs(addresses[i], key) && forall j | 0 <= j <= i :: !IsWrittenAs(addresses[j], later)
  }

  lemma AskedInOrder(addresses: seq<string>, i: nat, j: nat)
    requires i < j < |Distinct(addresses)|
    ensures IsFirstGivenBefore(addresses, Distinct(addresses)[i], Distinct(addresses)[j])
  {
    hide Distinct, Normalized, IsWrittenAs, IsKey;
    var keys := Distinct(addresses);
    AskedAboutExactly(addresses);
    assert keys[i] in keys && keys[j] in keys;
    DistinctInOrder(addresses, i, j);
    var p :| 0 <= p < |addresses| && Normalized(addresses[p]) == keys[i]
             && forall q | 0 <= q <= p :: Normalized(addresses[q]) != keys[j];
    NormalizedExactly(addresses[p], keys[i]);
    forall q | 0 <= q <= p
      ensures !IsWrittenAs(addresses[q], keys[j])
    {
      NormalizedExactly(addresses[q], keys[j]);
    }
  }

  lemma {:induction false} DistinctInOrder(addresses: seq<string>, i: nat, j: nat)
    requires i < j < |Distinct(addresses)|
    ensures exists p | 0 <= p < |addresses| ::
              Normalized(addresses[p]) == Distinct(addresses)[i]
              && forall q | 0 <= q <= p :: Normalized(addresses[q]) != Distinct(addresses)[j]
  {
    hide Normalized;
    var init := addresses[..|addresses| - 1];
    var before, keys := Distinct(init), Distinct(addresses);
    if j < |before| {
      DistinctInOrder(init, i, j);
      var p :| 0 <= p < |init| && Normalized(init[p]) == before[i]
               && forall q | 0 <= q <= p :: Normalized(init[q]) != before[j];
      assert Normalized(addresses[p]) == keys[i];
      forall q | 0 <= q <= p
        ensures Normalized(addresses[q]) != keys[j]
      {
        assert init[q] == addresses[q];
      }
    } else {
      DistinctExactly(init);
      assert keys[i] == before[i] && before[i] in before && keys[j] !in before;
      var p :| 0 <= p < |init| && Normalized(init[p]) == before[i];
      assert Normalized(addresses[p]) == keys[i];
      assert !IsGiven(init, keys[j]);
      forall q | 0 <= q <= p
        ensures Normalized(addresses[q]) != keys[j]
      {
        assert init[q] == addresses[q];
        DistinctExactly(addresses);
        assert keys[j] in keys;
      }
    }
  }

  /** However an address is spelled twice, core is asked about it once, and the
      answer for it is under its key alone. */
  lemma SpellingsAreAskedOnce(addresses: seq<string>, i: nat, j: nat, k: nat, l: nat)
    requires i < |addresses| && j < |addresses| && AreSpellings(addresses[i], addresses[j])
    requires k < |Distinct(addresses)| && IsWrittenAs(addresses[i], Distinct(addresses)[k])
    requires l < |Distinct(addresses)| && IsWrittenAs(addresses[j], Distinct(addresses)[l])
    ensures k == l
  {
    hide Distinct, IsWrittenAs, IsKey;
    var keys := Distinct(addresses);
    AskedAboutExactly(addresses);
    assert keys[k] in keys && keys[l] in keys;
    SpellingsShareTheirKey(addresses[i], addresses[j], keys[k]);
    OneKey(addresses[j], keys[k], keys[l]);
  }

  /** An answer is under exactly those keys, and says of each what core's item
      for it said. */
  lemma AnsweredExactly(core: Replies, call: nat, addresses: seq<string>)
    ensures var r := AskInBatches(core, call, Distinct(addresses), map[]);
            r.Ok? ==>
              && (forall key :: key in r.value <==> IsGivenAs(addresses, key))
              && (forall k | 0 <= k < |Distinct(addresses)| ::
                    Distinct(addresses)[k] in r.value
                    && IsOwnAnswer(core, call, Distinct(addresses), k, r.value[Distinct(addresses)[k]]))
  {
    hide IsGiven, IsGivenAs, AskInBatches, Distinct, IsOwnAnswer;
    EachGetsItsOwn(core, call, addresses);
    forall key
      ensures IsGiven(addresses, key) <==> IsGivenAs(addresses, key)
    {
      GivenExactly(addresses, key);
    }
  }

  /** And of a core that knows whose addresses are accounts', that. */
  lemma AnsweredTruthfully(core: Replies, accounts: iset<string>, call: nat, addresses: seq<string>)
    requires IsTruthful(core, accounts)
    ensures var r := AskInBatches(core, call, Distinct(addresses), map[]);
            r.Ok? ==> forall key | IsGivenAs(addresses, key) :: key in r.value && (r.value[key] <==> key in accounts)
  {
    hide IsGiven, IsGivenAs, AskInBatches, Distinct, IsTruthful;
    MatchedIsAskingAlone(core, accounts, call, addresses);
    forall key
      ensures IsGiven(addresses, key) <==> IsGivenAs(addresses, key)
    {
      GivenExactly(addresses, key);
    }
  }

  /** Each key is asked about by address, not by subject, in that order. */
  lemma AskedByAddress(core: Replies, call: nat, addresses: seq<string>)
    requires AskInBatches(core, call, Distinct(addresses), map[]).Ok?
    ensures var asked, keys := Flat(Asked(core, call, Distinct(addresses))), Distinct(addresses);
            |asked| == |keys| && forall k | 0 <= k < |keys| :: asked[k] == Recipient(keys[k], "")
  {
    hide Distinct, AskInBatches, Asked, Flat;
    AskedExactlyOnce(core, call, Distinct(addresses), map[]);
  }

  // ---- What is read of an audience -----------------------------------------

  /** The items of some pages as core gave them. */
  function GivenItems(core: Pages, page: nat, afters: seq<string>): (r: seq<Item>)
    requires IsReading(core, page, afters)
    decreases |afters|
  {
    core(page, afters[0]).value.items.value
    + if |afters| == 1 then [] else GivenItems(core, page + 1, afters[1..])
  }

  /** An item is read under its address's key, and its other fields are kept. */
  ghost predicate IsReadAs(given: Item, r: Item) {
    && r.email != "" && IsKey(r.email) && IsWrittenAs(given.email, r.email)
    && r.textVersion == given.textVersion && r.withdrawUrl == given.withdrawUrl && r.renewalDue == given.renewalDue
  }

  lemma GrantIsRead(item: Item)
    requires Normalized(item.email) != ""
    ensures IsReadAs(item, item.(email := Normalized(item.email)))
  {
    hide Normalized, IsKey, IsWrittenAs;
    NormalizedExactly(item.email, Normalized(item.email));
  }

  /** An audience is every item of its pages, in their order, each under the key
      of its address: no upper-case letter and no outer white space is left in
      it, and it is never empty. */
  lemma {:induction false} AudienceIsKeyed(core: Pages, page: nat, afters: seq<string>, i: nat)
    requires IsReading(core, page, afters)
    ensures |AllGrants(core, page, afters)| == |GivenItems(core, page, afters)|
    ensures i < |AllGrants(core, page, afters)| ==>
              IsReadAs(GivenItems(core, page, afters)[i], AllGrants(core, page, afters)[i])
    decreases |afters|
  {
    hide Normalized, IsReadAs;
    var items := core(page, afters[0]).value.items.value;
    if i < |items| {
      GrantIsRead(items[i]);
    }
    if |afters| > 1 {
      AudienceIsKeyed(core, page + 1, afters[1..], if i < |items| then 0 else i - |items|);
    }
  }

  /** The pages asked for are those read, when they are read. */
  lemma {:induction false} PagesAskedExactly(core: Pages, page: nat, afters: seq<string>)
    requires IsReading(core, page, afters) && page + |afters| <= MAX_AUDIENCE_PAGES
    ensures PagesAsked(core, page, afters[0]) == afters
    decreases |afters|
  {
    hide HasAddresses;
    if |afters| > 1 {
      PagesAskedExactly(core, page + 1, afters[1..]);
      assert [afters[0]] + afters[1..] == afters;
    }
  }

  /** Why a page ends the reading: the call failed, there are no items, one has
      an address of white space alone, or the next page is the same or none. */
  lemma PageErrorsExactly(core: Pages, page: nat, after: string)
    ensures var p := core(page, after);
            PageError(core, page, after) ==
              match p
              case None => Some(CallFailed)
              case Some(Page(None, _)) => Some(NoItems)
              case Some(Page(Some(items), next)) =>
                if exists i | 0 <= i < |items| :: AllWhite(items[i].email) then Some(NoAddress)
                else if next == Some("") || next == Some(after) then Some(NoNextPage) else None
  {
    hide Normalized, AllWhite;
    var p := core(page, after);
    if p.Some? && p.value.items.Some? {
      forall i | 0 <= i < |p.value.items.value|
        ensures Normalized(p.value.items.value[i].email) == "" <==> AllWhite(p.value.items.value[i].email)
      {
        NormalizedExactly(p.value.items.value[i].email, "");
        WhiteIsNoKey(p.value.items.value[i].email);
      }
    }
  }

  // ---- What is read of a reply ---------------------------------------------

  /** An answer holds for all asked about or for no one: a list of another length
      or none is no answer, and a refusal says whether the category was unknown. */
  lemma CheckedExactly(reply: Reply, asked: nat)
    ensures Checked(reply, asked) ==
              match reply
              case UnknownCategory => Err(CategoryUnknown)
              case Failed => Err(CallFailed)
              case Results(None) => Err(NotEveryRecipient)
              case Results(Some(items)) => if |items| == asked then Ok(items) else Err(NotEveryRecipient)
  {
  }

  // ---- What is read of a decision ------------------------------------------

  /** An answer is at fault when it allows a mail without its link or with a
      reason, or refuses one for no reason core gives; what is not an account's
      is never at fault. */
  lemma FaultsExactly(item: ResolvedItem)
    ensures Fault(item) == Some(NoLink) <==>
              item.matched && item.allowed && (item.unsubscribeUrl == "" || item.reason != "")
    ensures Fault(item) == Some(UnknownReason) <==>
              item.matched && !item.allowed
              && item.reason != "opted_out" && item.reason != "inactive" && item.reason != "ambiguous"
    ensures Fault(item).None? || Fault(item) == Some(NoLink) || Fault(item) == Some(UnknownReason)
  {
  }

  /** A decision has the answer's subject, and says what it says; its link only
      where mail is allowed; and nothing where there is no account. */
  lemma DecisionsExactly(item: ResolvedItem)
    ensures var d := DecisionOf(item);
            if item.matched then
              && d.matched && d.sub == item.sub && d.allowed == item.allowed && d.reason == item.reason
              && d.unsubscribeUrl == if item.allowed then item.unsubscribeUrl else ""
            else !d.matched && d.sub == "" && !d.allowed && d.reason == "" && d.unsubscribeUrl == ""
  {
  }
}
